/**
 The poll thread, the polling lock and the registry of sockets. Clients start,
 stop and set socket options from other threads while the poller looks at the
 registry; each step below is atomic and they may be interleaved in any way.
 */
module PollLock {
  import opened Text

  type Fd = nat

  type Obj = nat

  datatype Life = Stopped | BeginStart | Started | Error

  datatype Op = Start | Stop | SetRst

  /** Where a client's own thread is in `start`, `stop` or `set_rst_tcp_to_closing_connection`. */
  datatype Pc =
    | Idle
    | Waiting(op: Op)
    | StartHeld
    | SocketMade
    | Registered
    | StopHeld
    | Unregistered
    | SocketClosed
    | RstHeld
    | Leaving(op: Op, ok: bool)
    | Left(op: Op, ok: bool)

  /** `sock` is the open socket of the object, `fileno` the descriptor it is registered under. */
  datatype Client = Client(life: Life, pc: Pc, fileno: Option<Fd>, sock: Option<Fd>)

  datatype Owner = ByPoller | ByClient(c: Obj)

  datatype Poller =
    | Between
    | Polling
    | Dispatching(snapshot: map<Fd, Obj>, todo: seq<Fd>)
    | Finishing
    | Dying
    | Reporting
    | Dead

  /** An event handed to `target`, the object that was registered under `fd` when the poll began. */
  datatype Delivery = Delivery(fd: Fd, target: Obj, snapshotted: Obj)

  datatype State = State(
    clients: map<Obj, Client>, socketMap: map<Fd, Obj>, open: set<Fd>,
    lock: Option<Owner>, poller: Poller, leaked: bool, log: seq<Delivery>)

  /** What a handler does to its own object before it returns or raises. */
  datatype Handled = Nothing | Closed | ClosedThenRaised | UnregisteredThenRaised | Raised

  datatype Event =
    | Begin(c: Obj, op: Op, force: bool)
    | Acquire(c: Obj)
    | MakeSocket(c: Obj, fd: Fd)
    | Register(c: Obj)
    | Connected(c: Obj)
    | Unregister(c: Obj)
    | CloseSocket(c: Obj)
    | ClearStats(c: Obj)
    | SetOption(c: Obj)
    | RaiseIn(c: Obj)
    | Release(c: Obj)
    | Settle(c: Obj)
    | PollAcquire
    | Snapshot(ready: seq<Fd>)
    | Dispatch(handled: Handled)
    | PollRelease
    | Report
    | Exit

  function Boot(objects: set<Obj>): State {
    State(map c | c in objects :: Client(Stopped, Idle, None, None), map[], {}, None, Between, false, [])
  }

  // ------------------------------------------------------------------------- steps

  /** `_del_channel` */
  function DelChannel<T>(m: map<Fd, T>, fileno: Option<Fd>): map<Fd, T> {
    if fileno.Some? then m - {fileno.value} else m
  }

  function With(s: State, c: Obj, client: Client): State {
    s.(clients := s.clients[c := client])
  }

  /** Unregisters an object: its key leaves the map and its `_fileno` becomes None. */
  function UnregisterObj(s: State, c: Obj): State
    requires c in s.clients
  {
    var client := s.clients[c];
    With(s, c, client.(fileno := None)).(socketMap := DelChannel(s.socketMap, client.fileno))
  }

  function CloseObj(s: State, c: Obj): State
    requires c in s.clients
  {
    var client := s.clients[c];
    With(s, c, client.(sock := None)).(open := if client.sock.Some? then s.open - {client.sock.value} else s.open)
  }

  function Move(s: State, c: Obj, pc: Pc): State
    requires c in s.clients
  {
    With(s, c, s.clients[c].(pc := pc))
  }

  predicate MayBegin(client: Client, op: Op, force: bool) {
    match op
    case Start => client.life == Stopped
    case Stop => force || client.life == Started || client.life == BeginStart
    case SetRst => true
  }

  function HeldAfter(op: Op): Pc {
    match op
    case Start => StartHeld
    case Stop => StopHeld
    case SetRst => RstHeld
  }

  /** `_create_socket` opens a descriptor that is not in use. */
  function MakeSocketStep(s: State, c: Obj, fd: Fd): State
    requires c in s.clients
  {
    var client := s.clients[c];
    if client.pc != StartHeld || fd in s.open then s
    else With(s, c, client.(pc := SocketMade, sock := Some(fd))).(open := s.open + {fd})
  }

  /** `_set_socket` notes the descriptor and adds the object to the map. */
  function RegisterStep(s: State, c: Obj): State
    requires c in s.clients
  {
    var client := s.clients[c];
    if client.pc != SocketMade || client.sock.None? then s
    else With(s, c, client.(pc := Registered, fileno := client.sock)).(socketMap := s.socketMap[client.sock.value := c])
  }

  function UnregisterStep(s: State, c: Obj): State
    requires c in s.clients
  {
    if s.clients[c].pc == StopHeld then Move(UnregisterObj(s, c), c, Unregistered) else s
  }

  function CloseStep(s: State, c: Obj): State
    requires c in s.clients
  {
    if s.clients[c].pc == Unregistered then Move(CloseObj(s, c), c, SocketClosed) else s
  }

  /** What the steps on no socket touch: the client and the lock. */
  datatype Control = Control(client: Client, lock: Option<Owner>, leaked: bool)

  function MoveOn(k: Control, pc: Pc): Control {
    k.(client := k.client.(pc := pc))
  }

  /** The life an operation leaves. */
  function Settled(op: Op, ok: bool, life: Life): Life {
    match op
    case Start => if ok then Started else life
    case Stop => if ok then Stopped else Error
    case SetRst => life
  }

  predicate StartingAt(pc: Pc) {
    pc == StartHeld || pc == SocketMade || pc == Registered
  }

  predicate StoppingAt(pc: Pc) {
    pc == StopHeld || pc == Unregistered || pc == SocketClosed
  }

  /** An exception leaves a locked section that has a `finally`. */
  function Raising(k: Control): Control {
    if StartingAt(k.client.pc) then MoveOn(k, Leaving(Start, false))
    else if StoppingAt(k.client.pc) then MoveOn(k, Leaving(Stop, false))
    else k
  }

  function Controlled(k: Control, e: Event, c: Obj): Control {
    match (e, k.client.pc)
    case (Begin(_, op, force), Idle) =>
      if !MayBegin(k.client, op, force) then k
      else k.(client := k.client.(pc := Waiting(op), life := if op == Start then BeginStart else k.client.life))
    case (Acquire(_), Waiting(op)) =>
      if k.lock.None? then MoveOn(k, HeldAfter(op)).(lock := Some(ByClient(c))) else k
    case (Connected(_), Registered) => MoveOn(k, Leaving(Start, true))
    // The socket option cannot be set without an open socket, and no `finally` releases the lock.
    case (SetOption(_), RstHeld) =>
      if k.client.sock.Some? then MoveOn(k, Leaving(SetRst, true)) else MoveOn(k, Idle).(leaked := true)
    case (RaiseIn(_), _) => Raising(k)
    case (ClearStats(_), SocketClosed) => MoveOn(k, Leaving(Stop, true))
    case (Release(_), Leaving(op, ok)) => MoveOn(k, Left(op, ok)).(lock := None)
    case (Settle(_), Left(op, ok)) => k.(client := k.client.(pc := Idle, life := Settled(op, ok, k.client.life)))
    case _ => k
  }

  function ControlOf(s: State, c: Obj): Control
    requires c in s.clients
  {
    Control(s.clients[c], s.lock, s.leaked)
  }

  function ControlStep(s: State, e: Event, c: Obj): State
    requires c in s.clients
  {
    var k := Controlled(ControlOf(s, c), e, c);
    With(s, c, k.client).(lock := k.lock, leaked := k.leaked)
  }

  /** A step of a client's own thread. */
  function ClientStep(s: State, e: Event, c: Obj): State
    requires c in s.clients
  {
    match e
    case MakeSocket(_, fd) => MakeSocketStep(s, c, fd)
    case Register(_) => RegisterStep(s, c)
    case Unregister(_) => UnregisterStep(s, c)
    case CloseSocket(_) => CloseStep(s, c)
    case _ => ControlStep(s, e, c)
  }

  predicate Raises(handled: Handled) {
    handled != Nothing && handled != Closed
  }

  /** The object's `_readwrite` runs. */
  function Handle(s: State, c: Obj, handled: Handled): State
    requires c in s.clients
  {
    match handled
    case Nothing => s
    case Closed => CloseObj(UnregisterObj(s, c), c)
    case ClosedThenRaised => CloseObj(UnregisterObj(s, c), c).(poller := Dying)
    case UnregisteredThenRaised => UnregisterObj(s, c).(poller := Dying)
    case Raised => s.(poller := Dying)
  }

  /** An error of the manager is passed on to every client. */
  function Failed(clients: map<Obj, Client>): map<Obj, Client> {
    map c | c in clients :: clients[c].(life := Life.Error)
  }

  /** A step of the poll thread. */
  function PollStep(s: State, e: Event): State {
    match (e, s.poller)
    case (PollAcquire, Between) => if s.lock.None? then s.(lock := Some(ByPoller), poller := Polling) else s
    case (Snapshot(ready), Polling) =>
      s.(poller := Dispatching(s.socketMap, SubSeq(ready, s.socketMap.Keys)))
    case (Dispatch(handled), Dispatching(snapshot, todo)) =>
      if todo == [] then s.(poller := Finishing)
      else
        var fd := todo[0];
        var next := s.(poller := Dispatching(snapshot, todo[1..]));
        if fd in s.socketMap && s.socketMap[fd] in s.clients && fd in snapshot
        then Handle(next.(log := s.log + [Delivery(fd, s.socketMap[fd], snapshot[fd])]), s.socketMap[fd], handled)
        else next
    case (PollRelease, Finishing) => s.(lock := None, poller := Between)
    case (PollRelease, Dying) => s.(lock := None, poller := Reporting)
    case (Report, Reporting) => s.(poller := Dead, clients := Failed(s.clients))
    case (Exit, Between) => s.(poller := Dead)
    case _ => s
  }

  /** The descriptors reported ready are among those registered. */
  function SubSeq(ready: seq<Fd>, known: set<Fd>): (r: seq<Fd>)
    ensures forall fd | fd in r :: fd in known
  {
    if ready == [] then []
    else if ready[0] in known then [ready[0]] + SubSeq(ready[1..], known)
    else SubSeq(ready[1..], known)
  }

  predicate IsClientEvent(e: Event) {
    !(e.PollAcquire? || e.Snapshot? || e.Dispatch? || e.PollRelease? || e.Report? || e.Exit?)
  }

  /** One atomic step; an event that is not possible changes nothing. */
  function Step(s: State, e: Event): State {
    if IsClientEvent(e) then if e.c in s.clients then ClientStep(s, e, e.c) else s
    else PollStep(s, e)
  }

  predicate IsSocketEvent(e: Event) {
    e.MakeSocket? || e.Register? || e.Unregister? || e.CloseSocket?
  }

  /** A step of a client's thread on no socket, by what it does to the client and the lock. */
  lemma ControlStepIs(s: State, e: Event)
    requires IsClientEvent(e) && e.c in s.clients && !IsSocketEvent(e)
    ensures var k := Controlled(ControlOf(s, e.c), e, e.c);
            Step(s, e) == With(s, e.c, k.client).(lock := k.lock, leaked := k.leaked)
  {
    hide Controlled;
  }

  lemma SocketStepIs(s: State, c: Obj, fd: Fd)
    requires c in s.clients
    ensures Step(s, MakeSocket(c, fd)) == MakeSocketStep(s, c, fd) && Step(s, Register(c)) == RegisterStep(s, c)
    ensures Step(s, Unregister(c)) == UnregisterStep(s, c) && Step(s, CloseSocket(c)) == CloseStep(s, c)
  {
    hide MakeSocketStep, RegisterStep, UnregisterStep, CloseStep;
  }

  /** What handing out the next event does. */
  lemma DispatchStep(s: State, handled: Handled)
    requires s.poller.Dispatching? && s.poller.todo != []
    ensures var fd := s.poller.todo[0];
            var next := s.(poller := Dispatching(s.poller.snapshot, s.poller.todo[1..]));
            Step(s, Dispatch(handled))
            == if fd in s.socketMap && s.socketMap[fd] in s.clients && fd in s.poller.snapshot
               then
                 var delivery := Delivery(fd, s.socketMap[fd], s.poller.snapshot[fd]);
                 Handle(next.(log := s.log + [delivery]), s.socketMap[fd], handled)
               else next
  {
    hide Handle;
  }

  lemma ReportStep(s: State)
    requires s.poller == Reporting
    ensures Step(s, Report) == s.(poller := Dead, clients := Failed(s.clients))
  {
  }

  lemma HandlePoller(s: State, c: Obj, handled: Handled)
    requires c in s.clients
    ensures Handle(s, c, handled).poller == if Raises(handled) then Dying else s.poller
  {
  }

  function Run(objects: set<Obj>, events: seq<Event>): State {
    if events == [] then Boot(objects)
    else Step(Run(objects, events[..|events| - 1]), events[|events| - 1])
  }

  lemma RunThen(objects: set<Obj>, events: seq<Event>, e: Event)
    ensures Run(objects, events + [e]) == Step(Run(objects, events), e)
  {
    hide Step, Boot;
    assert (events + [e])[..|events|] == events;
  }

  // --------------------------------------------------------------------- invariants

  predicate Holds(pc: Pc) {
    || pc.StartHeld? || pc.SocketMade? || pc.Registered?
    || pc.StopHeld? || pc.Unregistered? || pc.SocketClosed?
    || pc.RstHeld? || pc.Leaving?
  }

  predicate PollerHolds(p: Poller) {
    p.Polling? || p.Dispatching? || p.Finishing? || p.Dying?
  }

  /** Whoever is inside a locked section owns the lock, and only a lost lock has no one inside. */
  predicate LockInv(s: State) {
    && (forall c | c in s.clients && Holds(s.clients[c].pc) :: s.lock == Some(ByClient(c)) && !s.leaked)
    && (PollerHolds(s.poller) ==> s.lock == Some(ByPoller) && !s.leaked)
    && (s.lock == Some(ByPoller) ==> PollerHolds(s.poller))
    && (s.lock.Some? && s.lock.value.ByClient? ==>
          var c := s.lock.value.c; c in s.clients && (Holds(s.clients[c].pc) || s.leaked))
    && (s.leaked ==> s.lock.Some?)
  }

  predicate BeforeRegistering(pc: Pc) {
    pc == Waiting(Start) || pc == StartHeld || pc == SocketMade
  }

  predicate AfterUnregistering(pc: Pc) {
    pc == Unregistered || pc == SocketClosed || pc == Leaving(Stop, true) || pc == Left(Stop, true)
  }

  /** A client on its way to registering is not registered; one that is registered has not been stopped. */
  predicate ClientInv(client: Client) {
    && (client.fileno.Some? ==> client.fileno == client.sock && client.life != Stopped)
    && (BeforeRegistering(client.pc) || AfterUnregistering(client.pc) ==> client.fileno == None)
    && (BeforeRegistering(client.pc) || client.pc == Registered ==> client.life != Stopped)
  }

  /** The registry: keys are open descriptors, each equal to its object's `_fileno`. */
  predicate RegistryInv(s: State) {
    && (forall fd | fd in s.socketMap ::
          fd in s.open && s.socketMap[fd] in s.clients && s.clients[s.socketMap[fd]].fileno == Some(fd))
    && (forall c | c in s.clients && s.clients[c].fileno.Some? ::
          s.clients[c].fileno.value in s.socketMap && s.socketMap[s.clients[c].fileno.value] == c)
    && (forall c | c in s.clients && s.clients[c].sock.Some? :: s.clients[c].sock.value in s.open)
    && (forall c, d | c in s.clients && d in s.clients && c != d && s.clients[c].sock.Some? ::
          s.clients[c].sock != s.clients[d].sock)
  }

  /** During dispatch the registry only loses objects of the snapshot. */
  predicate SnapshotInv(s: State) {
    && (s.poller.Dispatching? ==>
          forall fd | fd in s.socketMap :: fd in s.poller.snapshot && s.poller.snapshot[fd] == s.socketMap[fd])
    && (forall i | 0 <= i < |s.log| :: s.log[i].target == s.log[i].snapshotted)
  }

  predicate Inv(s: State) {
    && LockInv(s) && RegistryInv(s) && SnapshotInv(s)
    && (forall c | c in s.clients :: ClientInv(s.clients[c]))
  }

  // -------------------------------------------------------------------- preservation

  /** How a step may change who holds the lock: not at all, by taking it, giving it back, or losing it. */
  predicate LockStep(a: Control, b: Control, c: Obj) {
    var inside, stays := Holds(a.client.pc), Holds(b.client.pc);
    || (inside == stays && b.lock == a.lock && b.leaked == a.leaked)
    || (!inside && stays && a.lock == None && b.lock == Some(ByClient(c)) && b.leaked == a.leaked)
    || (inside && !stays && b.lock == None && b.leaked == a.leaked)
    || (inside && !stays && b.lock == a.lock && b.leaked)
  }

  lemma ControlledLock(k: Control, e: Event, c: Obj)
    ensures LockStep(k, Controlled(k, e, c), c)
  {
  }

  lemma LockStepKeeps(s: State, r: State, c: Obj)
    requires LockInv(s) && c in s.clients && r.clients.Keys == s.clients.Keys && r.poller == s.poller
    requires forall d | d in s.clients && d != c :: r.clients[d] == s.clients[d]
    requires LockStep(ControlOf(s, c), ControlOf(r, c), c)
    ensures LockInv(r)
  {
  }

  /** A step on a socket changes what is its own, under the lock and nothing about it. */
  lemma SocketFrame(s: State, e: Event, c: Obj)
    requires c in s.clients && IsSocketEvent(e)
    ensures var r := ClientStep(s, e, c);
            && r.clients.Keys == s.clients.Keys && (forall d | d in s.clients && d != c :: r.clients[d] == s.clients[d])
            && r.poller == s.poller && r.log == s.log && r.lock == s.lock && r.leaked == s.leaked
            && Holds(r.clients[c].pc) == Holds(s.clients[c].pc) && (!Holds(s.clients[c].pc) ==> r == s)
  {
    if e.MakeSocket? || e.Register? {
      hide UnregisterStep, CloseStep;
    } else {
      hide MakeSocketStep, RegisterStep;
    }
  }

  /** A step of a client's thread touches no other client and nothing of the poll thread. */
  lemma ClientFrame(s: State, e: Event, c: Obj)
    requires c in s.clients
    ensures var r := ClientStep(s, e, c);
            && r.clients.Keys == s.clients.Keys && (forall d | d in s.clients && d != c :: r.clients[d] == s.clients[d])
            && r.poller == s.poller && r.log == s.log && LockStep(ControlOf(s, c), ControlOf(r, c), c)
            && (!Holds(s.clients[c].pc) ==> r.socketMap == s.socketMap)
  {
    hide Controlled, Holds;
    if IsSocketEvent(e) {
      hide ClientStep;
      SocketFrame(s, e, c);
    } else {
      ControlledLock(ControlOf(s, c), e, c);
    }
  }

  lemma ClientKeepsLock(s: State, e: Event, c: Obj)
    requires LockInv(s) && c in s.clients
    ensures LockInv(ClientStep(s, e, c))
  {
    hide LockInv, ClientStep, LockStep;
    ClientFrame(s, e, c);
    LockStepKeeps(s, ClientStep(s, e, c), c);
  }

  lemma ControlledClient(k: Control, e: Event, c: Obj)
    ensures var client := Controlled(k, e, c).client; client.fileno == k.client.fileno && client.sock == k.client.sock
    ensures ClientInv(k.client) ==> ClientInv(Controlled(k, e, c).client)
  {
  }

  lemma ClientKeepsItself(s: State, e: Event, c: Obj)
    requires c in s.clients && ClientInv(s.clients[c])
    ensures c in ClientStep(s, e, c).clients && ClientInv(ClientStep(s, e, c).clients[c])
  {
    hide Controlled, ClientInv;
    if IsSocketEvent(e) {
      SocketKeepsClient(s, e, c);
    } else {
      ControlledClient(ControlOf(s, c), e, c);
    }
  }

  lemma SocketKeepsClient(s: State, e: Event, c: Obj)
    requires c in s.clients && ClientInv(s.clients[c]) && IsSocketEvent(e)
    ensures c in ClientStep(s, e, c).clients && ClientInv(ClientStep(s, e, c).clients[c])
  {
  }

  lemma UnregisterKeeps(s: State, c: Obj)
    requires RegistryInv(s) && c in s.clients
    ensures RegistryInv(UnregisterObj(s, c)) && UnregisterObj(s, c).clients[c].fileno == None
  {
  }

  lemma CloseKeeps(s: State, c: Obj)
    requires RegistryInv(s) && c in s.clients && s.clients[c].fileno == None
    requires FilenoIsSock(s)
    ensures RegistryInv(CloseObj(s, c))
  {
  }

  lemma MoveKeeps(s: State, c: Obj, client: Client)
    requires RegistryInv(s) && c in s.clients
    requires client.fileno == s.clients[c].fileno && client.sock == s.clients[c].sock
    ensures RegistryInv(With(s, c, client))
  {
  }

  lemma MakeSocketKeeps(s: State, c: Obj, fd: Fd, client: Client)
    requires RegistryInv(s) && c in s.clients && fd !in s.open
    requires client.fileno == None && s.clients[c].fileno == None && client.sock == Some(fd)
    ensures RegistryInv(With(s, c, client).(open := s.open + {fd}))
  {
  }

  lemma RegisterKeeps(s: State, c: Obj, fd: Fd, client: Client)
    requires RegistryInv(s) && c in s.clients && s.clients[c].sock == Some(fd) && s.clients[c].fileno == None
    requires FilenoIsSock(s)
    requires client.sock == Some(fd) && client.fileno == Some(fd)
    ensures RegistryInv(With(s, c, client).(socketMap := s.socketMap[fd := c]))
  {
  }

  predicate FilenoIsSock(s: State) {
    forall d | d in s.clients && s.clients[d].fileno.Some? :: s.clients[d].fileno == s.clients[d].sock
  }

  lemma FilenosAreSocks(s: State)
    requires forall d | d in s.clients :: ClientInv(s.clients[d])
    ensures FilenoIsSock(s)
  {
    forall d | d in s.clients && s.clients[d].fileno.Some? ensures s.clients[d].fileno == s.clients[d].sock {
      assert ClientInv(s.clients[d]);
    }
  }

  lemma ClientKeepsRegistry(s: State, e: Event, c: Obj)
    requires RegistryInv(s) && c in s.clients && ClientInv(s.clients[c]) && FilenoIsSock(s)
    ensures RegistryInv(ClientStep(s, e, c))
  {
    hide RegistryInv, FilenoIsSock;
    if IsSocketEvent(e) {
      SocketKeepsRegistry(s, e, c);
    } else {
      hide Controlled;
      var r := ClientStep(s, e, c);
      ControlledClient(ControlOf(s, c), e, c);
      MoveKeeps(s, c, r.clients[c]);
      SameRegistry(With(s, c, r.clients[c]), r);
    }
  }

  lemma SocketKeepsRegistry(s: State, e: Event, c: Obj)
    requires RegistryInv(s) && c in s.clients && ClientInv(s.clients[c]) && FilenoIsSock(s) && IsSocketEvent(e)
    ensures RegistryInv(ClientStep(s, e, c))
  {
    hide RegistryInv, FilenoIsSock;
    var client, r := s.clients[c], ClientStep(s, e, c);
    if e.MakeSocket? {
      if client.pc.StartHeld? && e.fd !in s.open {
        MakeSocketKeeps(s, c, e.fd, r.clients[c]);
      }
    } else if e.Register? {
      if client.pc.SocketMade? && client.sock.Some? {
        RegisterKeeps(s, c, client.sock.value, r.clients[c]);
      }
    } else if e.Unregister? {
      UnregisterKeeps(s, c);
      MoveKeeps(UnregisterObj(s, c), c, UnregisterObj(s, c).clients[c].(pc := Unregistered));
    } else if client.pc.Unregistered? {
      CloseKeeps(s, c);
      MoveKeeps(CloseObj(s, c), c, r.clients[c]);
    }
  }

  lemma SameRegistry(s: State, r: State)
    requires RegistryInv(s) && r.clients == s.clients && r.socketMap == s.socketMap && r.open == s.open
    ensures RegistryInv(r)
  {
  }

  /** The registry changes in no thread but the one that owns the lock. */
  lemma OnlyOwnerChangesMap(s: State, e: Event)
    requires LockInv(s) && Step(s, e).socketMap != s.socketMap
    ensures s.lock == Some(if IsClientEvent(e) then ByClient(e.c) else ByPoller)
  {
    if IsClientEvent(e) {
      hide ClientStep, LockStep;
      ClientFrame(s, e, e.c);
    } else {
      PollChangesMap(s, e);
    }
  }

  lemma PollChangesMap(s: State, e: Event)
    requires PollStep(s, e).socketMap != s.socketMap
    ensures s.poller.Dispatching?
  {
    hide Handle;
  }

  lemma ClientKeepsSnapshot(s: State, e: Event, c: Obj)
    requires LockInv(s) && SnapshotInv(s) && c in s.clients && IsClientEvent(e) && e.c == c
    ensures SnapshotInv(ClientStep(s, e, c))
  {
    hide LockInv, ClientStep, LockStep;
    ClientFrame(s, e, c);
    if ClientStep(s, e, c).socketMap != s.socketMap {
      OnlyOwnerChangesMap(s, e);
      assert !s.poller.Dispatching? by { NotBoth(s, c); }
    }
  }

  lemma NotBoth(s: State, c: Obj)
    requires LockInv(s) && s.lock == Some(ByClient(c))
    ensures !PollerHolds(s.poller)
  {
  }

  lemma ClientKeeps(s: State, e: Event)
    requires Inv(s) && IsClientEvent(e) && e.c in s.clients
    ensures Inv(Step(s, e))
  {
    hide LockInv, SnapshotInv, RegistryInv, ClientInv, ClientStep, LockStep;
    var c := e.c;
    ClientFrame(s, e, c);
    ClientKeepsLock(s, e, c);
    ClientKeepsItself(s, e, c);
    FilenosAreSocks(s);
    ClientKeepsRegistry(s, e, c);
    ClientKeepsSnapshot(s, e, c);
  }

  lemma HandleKeepsRegistry(s: State, c: Obj, handled: Handled)
    requires RegistryInv(s) && c in s.clients && forall d | d in s.clients :: ClientInv(s.clients[d])
    ensures RegistryInv(Handle(s, c, handled))
  {
    hide RegistryInv;
    var u := UnregisterObj(s, c);
    UnregisterKeeps(s, c);
    CloseKeeps(u, c);
    var base := if handled.Nothing? || handled.Raised? then s
                else if handled.UnregisteredThenRaised? then u else CloseObj(u, c);
    SameRegistry(base, Handle(s, c, handled));
  }

  lemma HandleKeepsClients(s: State, c: Obj, handled: Handled)
    requires c in s.clients && ClientInv(s.clients[c])
    ensures var r := Handle(s, c, handled);
            && r.clients.Keys == s.clients.Keys && ClientInv(r.clients[c]) && r.clients[c].pc == s.clients[c].pc
            && (forall d | d in s.clients && d != c :: r.clients[d] == s.clients[d])
            && (forall fd | fd in r.socketMap :: fd in s.socketMap && r.socketMap[fd] == s.socketMap[fd])
            && r.lock == s.lock && r.leaked == s.leaked && r.log == s.log
            && (r.poller == s.poller || r.poller == Dying)
  {
  }

  lemma HandleKeeps(s: State, c: Obj, handled: Handled)
    requires Inv(s) && c in s.clients && s.poller.Dispatching?
    ensures Inv(Handle(s, c, handled))
  {
    hide RegistryInv, Handle, ClientInv;
    HandleKeepsRegistry(s, c, handled);
    HandleKeepsClients(s, c, handled);
    var r := Handle(s, c, handled);
    assert forall d | d in r.clients :: r.clients[d].pc == s.clients[d].pc;
  }

  lemma PollKeeps(s: State, e: Event)
    requires Inv(s) && !IsClientEvent(e)
    ensures Inv(Step(s, e))
  {
    hide Handle, RegistryInv, ClientInv, LockInv, SnapshotInv;
    var r := Step(s, e);
    if e.Dispatch? && s.poller.Dispatching? && s.poller.todo != [] {
      DispatchKeeps(s, e.handled);
    } else if e.Report? && s.poller.Reporting? {
      ReportKeeps(s);
    } else {
      PlainPollStep(s, e);
      SameRegistry(s, r);
    }
  }

  /** The steps of the poll thread that touch no object. */
  lemma PlainPollStep(s: State, e: Event)
    requires LockInv(s) && SnapshotInv(s) && !IsClientEvent(e)
    requires !(e.Dispatch? && s.poller.Dispatching? && s.poller.todo != []) && !(e.Report? && s.poller.Reporting?)
    ensures var r := Step(s, e);
            && r.clients == s.clients && r.socketMap == s.socketMap && r.open == s.open && r.log == s.log
            && LockInv(r) && SnapshotInv(r)
  {
    hide Handle;
    assert LockInv(Step(s, e)) by { hide SnapshotInv, SubSeq; }
    assert SnapshotInv(Step(s, e)) by { hide LockInv, Holds; }
  }

  lemma ReportKeeps(s: State)
    requires Inv(s) && s.poller.Reporting?
    ensures Inv(PollStep(s, Report))
  {
    hide LockInv, RegistryInv, ClientInv;
    var r := PollStep(s, Report);
    forall c | c in s.clients ensures ClientInv(r.clients[c]) {
      FailedKeeps(s.clients[c]);
    }
    ReportKeepsLock(s, r);
    ReportKeepsRegistry(s, r);
  }

  lemma FailedKeeps(client: Client)
    requires ClientInv(client)
    ensures ClientInv(client.(life := Error))
  {
  }

  lemma ReportKeepsLock(s: State, r: State)
    requires LockInv(s) && s.poller.Reporting? && r.poller == Dead && r.lock == s.lock && r.leaked == s.leaked
    requires r.clients.Keys == s.clients.Keys && forall c | c in s.clients :: r.clients[c].pc == s.clients[c].pc
    ensures LockInv(r)
  {
  }

  lemma ReportKeepsRegistry(s: State, r: State)
    requires RegistryInv(s) && r.socketMap == s.socketMap && r.open == s.open && r.clients.Keys == s.clients.Keys
    requires forall c | c in s.clients ::
               r.clients[c].fileno == s.clients[c].fileno && r.clients[c].sock == s.clients[c].sock
    ensures RegistryInv(r)
  {
  }

  lemma DispatchKeeps(s: State, handled: Handled)
    requires Inv(s) && s.poller.Dispatching? && s.poller.todo != []
    ensures Inv(PollStep(s, Dispatch(handled)))
  {
    hide Handle, RegistryInv;
    var fd := s.poller.todo[0];
    var next := s.(poller := Dispatching(s.poller.snapshot, s.poller.todo[1..]));
    SameRegistry(s, next);
    if fd in s.socketMap && s.socketMap[fd] in s.clients && fd in s.poller.snapshot {
      var logged := next.(log := s.log + [Delivery(fd, s.socketMap[fd], s.poller.snapshot[fd])]);
      SameRegistry(s, logged);
      HandleKeeps(logged, s.socketMap[fd], handled);
    }
  }

  lemma {:induction false} RunKeeps(objects: set<Obj>, events: seq<Event>)
    ensures Inv(Run(objects, events))
  {
    hide Inv, Step;
    if events == [] {
      BootHolds(objects);
    } else {
      var s := Run(objects, events[..|events| - 1]);
      var e := events[|events| - 1];
      RunKeeps(objects, events[..|events| - 1]);
      if !IsClientEvent(e) {
        PollKeeps(s, e);
      } else if e.c in s.clients {
        ClientKeeps(s, e);
      } else {
        NoSuchClient(s, e);
      }
    }
  }

  lemma NoSuchClient(s: State, e: Event)
    requires IsClientEvent(e) && e.c !in s.clients
    ensures Step(s, e) == s
  {
  }

  lemma BootHolds(objects: set<Obj>)
    ensures Inv(Boot(objects))
  {
  }

  // ------------------------------------------------------------------------ theorems

  predicate SomeoneInside(s: State) {
    PollerHolds(s.poller) || exists c | c in s.clients :: Holds(s.clients[c].pc)
  }

  /**
   In every interleaving: no two threads are inside a locked section; every
   registered key is an open descriptor and its object's `_fileno`; no object
   is registered twice; and each polled event went to the object that was
   registered under its descriptor when the poll began.
   */
  lemma RegistrySafety(objects: set<Obj>, events: seq<Event>)
    ensures var s := Run(objects, events);
            && (forall c, d | c in s.clients && d in s.clients ::
                  Holds(s.clients[c].pc) && Holds(s.clients[d].pc) ==> c == d)
            && (forall c | c in s.clients && Holds(s.clients[c].pc) :: !PollerHolds(s.poller))
            && (forall fd | fd in s.socketMap ::
                  fd in s.open && s.socketMap[fd] in s.clients && s.clients[s.socketMap[fd]].fileno == Some(fd))
            && (forall fd, fd' | fd in s.socketMap && fd' in s.socketMap ::
                  s.socketMap[fd] == s.socketMap[fd'] ==> fd == fd')
            && (forall i | 0 <= i < |s.log| :: s.log[i].target == s.log[i].snapshotted)
  {
    hide Run;
    RunKeeps(objects, events);
  }

  /** In a reachable state the registry is changed by the owner of the lock alone. */
  lemma MapChangesUnderLock(objects: set<Obj>, events: seq<Event>, e: Event)
    ensures var s := Run(objects, events);
            Step(s, e).socketMap != s.socketMap ==> s.lock == Some(if IsClientEvent(e) then ByClient(e.c) else ByPoller)
  {
    hide Run, Step;
    RunKeeps(objects, events);
    var s := Run(objects, events);
    if Step(s, e).socketMap != s.socketMap {
      OnlyOwnerChangesMap(s, e);
    }
  }

  /** Some client set the socket option while it had no open socket. */
  predicate OptionFailed(objects: set<Obj>, events: seq<Event>) {
    exists k | 0 <= k < |events| ::
      var s := Run(objects, events[..k]);
      events[k].SetOption? && events[k].c in s.clients
      && s.clients[events[k].c].pc == RstHeld && s.clients[events[k].c].sock == None
  }

  lemma {:induction false} LeakedIff(objects: set<Obj>, events: seq<Event>)
    ensures Run(objects, events).leaked <==> OptionFailed(objects, events)
  {
    hide ClientStep, PollStep;
    if events == [] {
    } else {
      var n := |events| - 1;
      var before := events[..n];
      LeakedIff(objects, before);
      assert forall k | 0 <= k < n :: events[..k] == before[..k] && events[k] == before[k];
      LeakStep(Run(objects, before), events[n]);
    }
  }

  lemma ControlledLeak(k: Control, e: Event, c: Obj)
    ensures Controlled(k, e, c).leaked <==>
              k.leaked || (e.SetOption? && k.client.pc == RstHeld && k.client.sock == None)
  {
  }

  lemma LeakStep(s: State, e: Event)
    ensures Step(s, e).leaked <==>
              s.leaked
              || (e.SetOption? && e.c in s.clients && s.clients[e.c].pc == RstHeld && s.clients[e.c].sock == None)
  {
    if IsClientEvent(e) {
      if e.c in s.clients {
        hide Controlled;
        ControlledLeak(ControlOf(s, e.c), e, e.c);
      }
    } else {
      PollNeverLeaks(s, e);
    }
  }

  lemma PollNeverLeaks(s: State, e: Event)
    ensures PollStep(s, e).leaked == s.leaked
  {
  }

  /**
   Every way out of a locked section releases the lock, exceptions and the
   poller's death included, but one: the lock is held with no one inside
   exactly when a client set the socket option without an open socket.
   */
  lemma LockLostIff(objects: set<Obj>, events: seq<Event>)
    ensures var s := Run(objects, events);
            (s.lock.Some? && !SomeoneInside(s)) <==> OptionFailed(objects, events)
  {
    hide Run, OptionFailed;
    RunKeeps(objects, events);
    LeakedIff(objects, events);
  }

  /** It does happen: the option is set before the client has been started. */
  lemma LockCanBeLost()
    ensures OptionFailed({0}, [Begin(0, SetRst, false), Acquire(0), SetOption(0)])
  {
    hide PollStep, MakeSocketStep, RegisterStep, UnregisterStep, CloseStep;
    var events := [Begin(0, SetRst, false), Acquire(0), SetOption(0)];
    assert Run({0}, []) == Boot({0});
    RunThen({0}, [], events[0]);
    RunThen({0}, [events[0]], events[1]);
    assert [] + [events[0]] == [events[0]] && [events[0]] + [events[1]] == events[..2];
  }

  /** A lost lock is never released: no one enters a locked section again. */
  lemma LostForever(objects: set<Obj>, events: seq<Event>, e: Event)
    requires OptionFailed(objects, events)
    ensures var s := Run(objects, events);
            Step(s, e).lock == s.lock && !SomeoneInside(Step(s, e)) && Step(s, e).socketMap == s.socketMap
  {
    hide Run, OptionFailed, Step;
    RunKeeps(objects, events);
    LeakedIff(objects, events);
    LostStep(Run(objects, events), e);
  }

  lemma LostStep(s: State, e: Event)
    requires LockInv(s) && s.leaked
    ensures Step(s, e).lock == s.lock && !SomeoneInside(Step(s, e)) && Step(s, e).socketMap == s.socketMap
  {
    if IsClientEvent(e) {
      hide ClientStep;
      if e.c in s.clients {
        ClientFrame(s, e, e.c);
      }
    } else {
      LostPollStep(s, e);
    }
  }

  lemma LostPollStep(s: State, e: Event)
    requires LockInv(s) && s.leaked
    ensures var r := PollStep(s, e); r.lock == s.lock && !SomeoneInside(r) && r.socketMap == s.socketMap
  {
    hide Handle;
  }
}
