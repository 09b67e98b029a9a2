/**
  The TCP server as a system of interleaved steps: the accept thread, one worker
  per client, and a caller that disconnects everybody or stops the server. A step
  is a block under the clients mutex, or one action outside it. The operating
  system may hand out a descriptor again as soon as it is closed.
 */
module TcpServers {
  /** Where a connection is in its life. */
  datatype Stage =
    | Held           // accepted, not yet admitted
    | Refused        // closed by the accept thread
    | Admitted       // tracked, worker not yet started
    | Started        // handler entered
    | Registered     // its remote control is listed
    | Unregistered   // handler about to return
    | Closed         // worker has closed the socket
    | Flagged        // worker has set its finished flag, its last action

  const OPEN := {Held, Admitted, Started, Registered, Unregistered}
  const TRACKED := {Admitted, Started, Registered, Unregistered}
  const LISTED := {Registered}
  const HANDLING := {Started, Registered, Unregistered}

  /** A connection; `closes`, `shutdowns` and `joins` count what has been done to its socket and its thread. */
  datatype Conn = Conn(fd: int, stage: Stage, cancelled: bool, closes: nat, shutdowns: nat, joins: nat)

  datatype AcceptPhase = Top | InAccept | Holding(held: nat) | Reaping(next: nat, at: nat) | Exited

  /** The serialised calls of `close_all_clients` and `stop`; `Callback` holds the mutex. */
  datatype Caller =
    | Idle | Draining(stopping: bool) | Callback(stopping: bool) | AwaitAccept | Joining(index: nat)

  /** `open` is the operating system's descriptor table. Connections are numbered in order of arrival. */
  datatype State = State(
    conns: seq<Conn>, open: map<int, nat>, active: map<int, nat>, remotes: map<int, nat>,
    workers: seq<nat>, accept: AcceptPhase, running: bool, disconnecting: bool, caller: Caller)

  const INITIAL := State([], map[], map[], map[], [], Exited, false, false, Idle)

  datatype Step =
    | Start | LoopTop | Accept(fd: int) | AcceptFails | Admit | Reap | Spawn
    | Register(c: nat) | Unregister(c: nat) | Epilogue(c: nat) | Flag(c: nat)
    | CloseAll | Drained | EndCallback | Stop | AcceptJoined | JoinWorker | StopEnds

  predicate At(s: State, c: nat, stage: Stage) {
    c < |s.conns| && s.conns[c].stage == stage
  }

  predicate LockFree(s: State) {
    !s.caller.Callback?
  }

  predicate Enabled(s: State, step: Step) {
    match step
    case Start => s.caller.Idle? && !s.running && s.accept.Exited?
    case LoopTop => s.accept.Top?
    case Accept(fd) => s.accept.InAccept? && fd !in s.open
    case AcceptFails => s.accept.InAccept?
    case Admit => s.accept.Holding? && s.accept.held < |s.conns| && LockFree(s)
    case Reap =>
      && s.accept.Reaping? && s.accept.at < |s.workers| && s.workers[s.accept.at] < |s.conns|
    case Spawn => s.accept.Reaping? && s.accept.at >= |s.workers| && s.accept.next < |s.conns|
    case Register(c) => At(s, c, Started)
    case Unregister(c) => At(s, c, Registered)
    case Epilogue(c) => At(s, c, Unregistered) && LockFree(s)
    case Flag(c) => At(s, c, Closed)
    case CloseAll => s.caller.Idle?
    case Drained => s.caller.Draining? && s.active == map[]
    case EndCallback => s.caller.Callback?
    case Stop => s.caller.Idle? && s.running
    case AcceptJoined => s.caller.AwaitAccept? && s.accept.Exited?
    case JoinWorker =>
      && s.caller.Joining? && s.caller.index < |s.workers| && s.workers[s.caller.index] < |s.conns|
      && s.conns[s.workers[s.caller.index]].stage.Flagged?
    case StopEnds => s.caller.Joining? && s.caller.index >= |s.workers|
  }

  // ---------------------------------------------------------------------
  // Effects
  // ---------------------------------------------------------------------

  function SetStage(conns: seq<Conn>, c: nat, stage: Stage): seq<Conn>
    requires c < |conns|
  {
    conns[c := conns[c].(stage := stage)]
  }

  /** `close(fd)` reaches whatever connection the descriptor names at that moment. */
  function CloseCounts(conns: seq<Conn>, open: map<int, nat>, fd: int): seq<Conn> {
    if fd in open && open[fd] < |conns|
    then conns[open[fd] := conns[open[fd]].(closes := conns[open[fd]].closes + 1)]
    else conns
  }

  /**
    For the descriptors `done`, the tracked client is cancelled, and `shutdown(fd)` reaches what
    the descriptor names.
   */
  function CancelConn(c: Conn, i: nat, open: map<int, nat>, active: map<int, nat>, done: set<int>): Conn {
    c.(cancelled := c.cancelled || exists fd :: fd in done && fd in active && active[fd] == i,
       shutdowns := c.shutdowns + |ShutBy(i, open, done)|)
  }

  function ShutBy(i: nat, open: map<int, nat>, done: set<int>): set<int> {
    set fd | fd in done && fd in open && open[fd] == i
  }

  function CancelSome(conns: seq<Conn>, open: map<int, nat>, active: map<int, nat>, done: set<int>): (r: seq<Conn>)
    ensures |r| == |conns|
  {
    seq(|conns|, i requires 0 <= i < |conns| => CancelConn(conns[i], i, open, active, done))
  }

  function CancelAll(conns: seq<Conn>, open: map<int, nat>, active: map<int, nat>): (r: seq<Conn>)
    ensures |r| == |conns|
  {
    CancelSome(conns, open, active, active.Keys)
  }

  /** `emplace` leaves an existing entry alone. */
  function Emplace(m: map<int, nat>, fd: int, c: nat): map<int, nat> {
    if fd in m then m else m[fd := c]
  }

  function Refuse(s: State, c: nat): State
    requires c < |s.conns|
  {
    var fd := s.conns[c].fd;
    s.(conns := SetStage(CloseCounts(s.conns, s.open, fd), c, Refused), open := s.open - {fd}, accept := Top)
  }

  function Take(s: State, c: nat): State
    requires c < |s.conns|
  {
    s.(conns := SetStage(s.conns, c, Admitted), active := Emplace(s.active, s.conns[c].fd, c), accept := Reaping(c, 0))
  }

  function Joined(conns: seq<Conn>, c: nat): seq<Conn>
    requires c < |conns|
  {
    conns[c := conns[c].(joins := conns[c].joins + 1)]
  }

  function ReapAt(s: State, i: nat): State
    requires s.accept.Reaping? && i < |s.workers| && s.workers[i] < |s.conns|
  {
    var c := s.workers[i];
    if s.conns[c].stage.Flagged?
    then s.(conns := Joined(s.conns, c), workers := s.workers[..i] + s.workers[i + 1..])
    else s.(accept := s.accept.(at := i + 1))
  }

  function CloseAndForget(s: State, c: nat): State
    requires c < |s.conns|
  {
    var fd := s.conns[c].fd;
    s.(conns := SetStage(CloseCounts(s.conns, s.open, fd), c, Closed), open := s.open - {fd}, active := s.active - {fd})
  }

  function Apply(s: State, step: Step): State
    requires Enabled(s, step)
  {
    match step
    case Start => s.(running := true, accept := Top)
    case LoopTop => s.(accept := if s.running then InAccept else Exited)
    case Accept(fd) =>
      s.(conns := s.conns + [Conn(fd, Held, false, 0, 0, 0)], open := s.open[fd := |s.conns|],
         accept := Holding(|s.conns|))
    case AcceptFails => s.(accept := Exited)
    case Admit => if !s.running || s.disconnecting then Refuse(s, s.accept.held) else Take(s, s.accept.held)
    case Reap => ReapAt(s, s.accept.at)
    case Spawn =>
      s.(conns := SetStage(s.conns, s.accept.next, Started), workers := s.workers + [s.accept.next], accept := Top)
    case Register(c) => s.(conns := SetStage(s.conns, c, Registered), remotes := s.remotes[s.conns[c].fd := c])
    case Unregister(c) => s.(conns := SetStage(s.conns, c, Unregistered), remotes := s.remotes - {s.conns[c].fd})
    case Epilogue(c) => CloseAndForget(s, c)
    case Flag(c) => s.(conns := SetStage(s.conns, c, Flagged))
    case CloseAll => s.(conns := CancelAll(s.conns, s.open, s.active), disconnecting := true, caller := Draining(false))
    case Drained => s.(caller := Callback(s.caller.stopping))
    case EndCallback =>
      s.(disconnecting := false, caller := if s.caller.stopping then Joining(0) else Idle)
    case Stop => s.(running := false, caller := AwaitAccept)
    case AcceptJoined =>
      s.(conns := CancelAll(s.conns, s.open, s.active), disconnecting := true, caller := Draining(true))
    case JoinWorker =>
      s.(conns := Joined(s.conns, s.workers[s.caller.index]), caller := Joining(s.caller.index + 1))
    case StopEnds => s.(workers := [], caller := Idle)
  }

  // ---------------------------------------------------------------------
  // The blocks as they run
  // ---------------------------------------------------------------------

  lemma SomeElement(s: set<int>)
    ensures s == {} || exists x :: x in s
  {
    if forall x :: x !in s {
      assert s == {};
    }
  }

  lemma OneLess(all: set<int>, rest: set<int>, x: int)
    requires rest <= all && x in rest
    ensures all - (rest - {x}) == all - rest + {x} && |rest - {x}| < |rest|
  {}

  class TcpServer {
    var conns: seq<Conn>
    var open: map<int, nat>
    var active: map<int, nat>
    var remotes: map<int, nat>
    var workers: seq<nat>
    var accept: AcceptPhase
    var running: bool
    var disconnecting: bool
    var caller: Caller

    function Now(): State
      reads this
    {
      State(conns, open, active, remotes, workers, accept, running, disconnecting, caller)
    }

    constructor ()
      ensures Now() == INITIAL
    {
      conns, open, active, remotes, workers := [], map[], map[], map[], [];
      accept, running, disconnecting, caller := Exited, false, false, Idle;
    }

    /** The system call `close`. */
    method CloseSocket(fd: int)
      modifies this`conns, this`open
      ensures conns == CloseCounts(old(conns), old(open), fd) && open == old(open) - {fd}
    {
      if fd in open && open[fd] < |conns| {
        conns := conns[open[fd] := conns[open[fd]].(closes := conns[open[fd]].closes + 1)];
      }
      open := open - {fd};
    }

    /** The accept thread's block under the mutex. */
    method Admission()
      requires Enabled(Now(), Admit)
      modifies this
      ensures Now() == Apply(old(Now()), Admit)
    {
      var c := accept.held;
      var fd := conns[c].fd;
      if !running || disconnecting {
        CloseSocket(fd);
        conns := SetStage(conns, c, Refused);
        accept := Top;
        return;
      }
      if fd !in active {
        active := active[fd := c];
      }
      conns := SetStage(conns, c, Admitted);
      accept := Reaping(c, 0);
    }

    /** One turn of the reaping loop. */
    method ReapNext()
      requires Enabled(Now(), Reap)
      modifies this
      ensures Now() == Apply(old(Now()), Reap)
    {
      var i := accept.at;
      var c := workers[i];
      if conns[c].stage.Flagged? {
        conns := conns[c := conns[c].(joins := conns[c].joins + 1)];
        workers := workers[..i] + workers[i + 1..];
      } else {
        accept := Reaping(accept.next, i + 1);
      }
    }

    method SpawnWorker()
      requires Enabled(Now(), Spawn)
      modifies this
      ensures Now() == Apply(old(Now()), Spawn)
    {
      var c := accept.next;
      conns := SetStage(conns, c, Started);
      workers := workers + [c];
      accept := Top;
    }

    /** The handler lists its remote control under its descriptor. */
    method ListRemote(c: nat)
      requires Enabled(Now(), Register(c))
      modifies this
      ensures Now() == Apply(old(Now()), Register(c))
    {
      remotes := remotes[conns[c].fd := c];
      conns := SetStage(conns, c, Registered);
    }

    method UnlistRemote(c: nat)
      requires Enabled(Now(), Unregister(c))
      modifies this
      ensures Now() == Apply(old(Now()), Unregister(c))
    {
      remotes := remotes - {conns[c].fd};
      conns := SetStage(conns, c, Unregistered);
    }

    /** The worker's block under the mutex, after its handler has returned. */
    method WorkerEpilogue(c: nat)
      requires Enabled(Now(), Epilogue(c))
      modifies this
      ensures Now() == Apply(old(Now()), Epilogue(c))
    {
      var fd := conns[c].fd;
      CloseSocket(fd);
      active := active - {fd};
      conns := SetStage(conns, c, Closed);
    }

    /** The first block of `close_all_clients`, up to the wait. */
    method CancelClients(stopping: bool)
      requires Enabled(Now(), if stopping then AcceptJoined else CloseAll)
      modifies this
      ensures Now() == Apply(old(Now()), if stopping then AcceptJoined else CloseAll)
    {
      disconnecting := true;
      CancelLoop();
      caller := Draining(stopping);
    }

    method CancelLoop()
      modifies this`conns
      ensures conns == CancelAll(old(conns), open, active)
    {
      hide CancelSome, CancelStep;
      ghost var was := conns;
      var rest := active.Keys;
      CancelNone(conns, open, active);
      while rest != {}
        invariant rest <= active.Keys
        invariant conns == CancelSome(was, open, active, active.Keys - rest)
        decreases |rest|
      {
        SomeElement(rest);
        var fd :| fd in rest;
        CancelMore(was, open, active, active.Keys - rest, fd);
        CancelClient(fd);
        OneLess(active.Keys, rest, fd);
        rest := rest - {fd};
      }
      assert active.Keys - {} == active.Keys;
    }

    /** One turn of the cancelling loop: the flag, then the system call `shutdown`. */
    method CancelClient(fd: int)
      requires fd in active
      modifies this`conns
      ensures conns == CancelStep(old(conns), open, active, fd)
    {
      if active[fd] < |conns| {
        conns := conns[active[fd] := conns[active[fd]].(cancelled := true)];
      }
      if fd in open && open[fd] < |conns| {
        conns := conns[open[fd] := conns[open[fd]].(shutdowns := conns[open[fd]].shutdowns + 1)];
      }
    }

    method JoinNext()
      requires Enabled(Now(), JoinWorker)
      modifies this
      ensures Now() == Apply(old(Now()), JoinWorker)
    {
      var c := workers[caller.index];
      conns := conns[c := conns[c].(joins := conns[c].joins + 1)];
      caller := Joining(caller.index + 1);
    }
  }

  lemma CancelNone(conns: seq<Conn>, open: map<int, nat>, active: map<int, nat>)
    ensures CancelSome(conns, open, active, active.Keys - active.Keys) == conns
  {
    var done := active.Keys - active.Keys;
    assert done == {};
    forall i | 0 <= i < |conns|
      ensures CancelConn(conns[i], i, open, active, done) == conns[i]
    {
      assert ShutBy(i, open, done) == {};
    }
  }

  function CancelStep(conns: seq<Conn>, open: map<int, nat>, active: map<int, nat>, fd: int): (r: seq<Conn>)
    requires fd in active
    ensures |r| == |conns|
  {
    var a := if active[fd] < |conns| then conns[active[fd] := conns[active[fd]].(cancelled := true)] else conns;
    if fd in open && open[fd] < |a| then a[open[fd] := a[open[fd]].(shutdowns := a[open[fd]].shutdowns + 1)] else a
  }

  /** One more descriptor: its client is cancelled, and the connection it names is shut down once more. */
  lemma CancelMore(conns: seq<Conn>, open: map<int, nat>, active: map<int, nat>, done: set<int>, fd: int)
    requires fd in active && fd !in done
    ensures CancelStep(CancelSome(conns, open, active, done), open, active, fd)
            == CancelSome(conns, open, active, done + {fd})
  {
    hide CancelConn;
    var a, b := CancelSome(conns, open, active, done), CancelSome(conns, open, active, done + {fd});
    forall i: nat | i < |conns|
      ensures CancelStep(a, open, active, fd)[i] == b[i]
    {
      CancelMoreAt(conns[i], i, open, active, done, fd);
    }
  }

  lemma CancelMoreAt(c: Conn, i: nat, open: map<int, nat>, active: map<int, nat>, done: set<int>, fd: int)
    requires fd in active && fd !in done
    ensures var k := CancelConn(c, i, open, active, done);
            CancelConn(c, i, open, active, done + {fd})
            == k.(cancelled := k.cancelled || active[fd] == i,
                  shutdowns := k.shutdowns + if fd in open && open[fd] == i then 1 else 0)
  {
    if fd in open && open[fd] == i {
      assert ShutBy(i, open, done + {fd}) == ShutBy(i, open, done) + {fd};
    } else {
      assert ShutBy(i, open, done + {fd}) == ShutBy(i, open, done);
    }
    assert (exists f :: f in done + {fd} && f in active && active[f] == i)
      <==> (exists f :: f in done && f in active && active[f] == i) || active[fd] == i by {
      if active[fd] == i {
        assert fd in done + {fd};
      }
      if f :| f in done && f in active && active[f] == i {
        assert f in done + {fd};
      }
    }
  }
}
