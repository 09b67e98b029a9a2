/** What every interleaving of the TCP server's steps keeps. */
module TcpSafety {
  import opened TcpServers

  // ---------------------------------------------------------------------
  // The invariant
  // ---------------------------------------------------------------------

  /** The map holds exactly the connections in one of the given stages, each under its own descriptor. */
  ghost predicate Tracks(m: map<int, nat>, conns: seq<Conn>, stages: set<Stage>) {
    && (forall fd :: fd in m ==> m[fd] < |conns| && conns[m[fd]].fd == fd && conns[m[fd]].stage in stages)
    && (forall c: nat :: c < |conns| && conns[c].stage in stages ==> conns[c].fd in m && m[conns[c].fd] == c)
  }

  predicate ClosedOnce(c: Conn) {
    c.closes == if c.stage in OPEN then 0 else 1
  }

  ghost predicate AllClosedOnce(conns: seq<Conn>) {
    forall c :: 0 <= c < |conns| ==> ClosedOnce(conns[c])
  }

  datatype Thread = NoThread | Live | Ended

  function ThreadOf(stage: Stage): Thread {
    match stage
    case Held => NoThread
    case Refused => NoThread
    case Admitted => NoThread
    case Flagged => Ended
    case _ => Live
  }

  /** Without a thread, or with a thread that has ended and been joined. */
  predicate Settled(c: Conn) {
    match ThreadOf(c.stage)
    case NoThread => c.joins == 0
    case Live => false
    case Ended => c.joins == 1
  }

  /** A listed worker: its thread exists, and has been joined only when `stop` has passed it. */
  predicate Listed(c: Conn, joined: bool) {
    if joined then c.joins == 1 && ThreadOf(c.stage).Ended? else c.joins == 0 && !ThreadOf(c.stage).NoThread?
  }

  function JoinedUpTo(caller: Caller): nat {
    if caller.Joining? then caller.index else 0
  }

  /** Every thread is listed until it has been joined, once, after its end. */
  ghost predicate JoinsRight(conns: seq<Conn>, workers: seq<nat>, upTo: nat) {
    && (forall i, j :: 0 <= i < j < |workers| ==> workers[i] != workers[j])
    && (forall i :: 0 <= i < |workers| ==> workers[i] < |conns| && Listed(conns[workers[i]], i < upTo))
    && (forall c: nat :: c < |conns| && c !in workers ==> Settled(conns[c]))
  }

  /** The accept thread holds the only connection that is not yet a worker's. */
  ghost predicate AcceptRight(s: State) {
    && (s.accept.Holding? ==> At(s, s.accept.held, Held))
    && (s.accept.Reaping? ==> At(s, s.accept.next, Admitted))
    && (forall c :: 0 <= c < |s.conns| && s.conns[c].stage.Held? ==> s.accept == Holding(c))
    && (forall c :: 0 <= c < |s.conns| && s.conns[c].stage.Admitted? ==> s.accept.Reaping? && s.accept.next == c)
  }

  ghost predicate AllCancelled(s: State) {
    forall c: nat :: c < |s.conns| && s.conns[c].stage in TRACKED ==> s.conns[c].cancelled
  }

  ghost predicate CallerRight(s: State) {
    && (s.disconnecting <==> s.caller.Draining? || s.caller.Callback?)
    && (s.disconnecting ==> AllCancelled(s))
    && (s.caller.Callback? ==> s.active == map[])
    && (s.caller.Joining? ==> s.active == map[] && s.caller.index <= |s.workers|)
    && (!s.running && !s.caller.AwaitAccept? ==> s.accept.Exited?)
    && (s.caller.Joining? || (s.disconnecting && s.caller.stopping) ==> !s.running)
    && (!s.running && s.caller.Idle? ==> s.workers == [] && s.active == map[])
    && (s.disconnecting && !s.caller.stopping && !s.running ==> s.workers == [] && s.active == map[])
    && (s.caller.AwaitAccept? ==> !s.running)
  }

  ghost predicate Inv(s: State) {
    && Tracks(s.open, s.conns, OPEN)
    && Tracks(s.active, s.conns, TRACKED)
    && Tracks(s.remotes, s.conns, LISTED)
    && AllClosedOnce(s.conns)
    && JoinsRight(s.conns, s.workers, JoinedUpTo(s.caller)) && AcceptRight(s) && CallerRight(s)
  }

  lemma InitialHolds()
    ensures Inv(INITIAL)
  {}

  // ---------------------------------------------------------------------
  // Tracking maps
  // ---------------------------------------------------------------------

  /** Same descriptors, and the same connections in the given stages. */
  lemma TracksSame(m: map<int, nat>, conns: seq<Conn>, conns': seq<Conn>, stages: set<Stage>)
    requires Tracks(m, conns, stages) && |conns'| == |conns|
    requires forall c :: 0 <= c < |conns| ==>
      conns'[c].fd == conns[c].fd && (conns'[c].stage in stages <==> conns[c].stage in stages)
    ensures Tracks(m, conns', stages)
  {}

  /** A connection enters under a descriptor not yet used. */
  lemma TracksEnter(m: map<int, nat>, conns: seq<Conn>, conns': seq<Conn>, stages: set<Stage>, c: nat)
    requires Tracks(m, conns, stages) && |conns| <= |conns'| <= |conns| + 1 && c < |conns'|
    requires c == |conns| || (|conns'| == |conns| && conns[c].stage !in stages)
    requires c < |conns| ==> |conns'| == |conns|
    requires forall k :: 0 <= k < |conns| && k != c ==> conns'[k] == conns[k]
    requires conns'[c].stage in stages && conns'[c].fd !in m
    ensures Tracks(m[conns'[c].fd := c], conns', stages)
  {
    var fd := conns'[c].fd;
    var m' := m[fd := c];
    forall k: nat | k < |conns'| && conns'[k].stage in stages
      ensures conns'[k].fd in m' && m'[conns'[k].fd] == k
    {
      if k != c {
        assert conns[k].fd in m;
      }
    }
  }

  lemma TracksGrow(m: map<int, nat>, conns: seq<Conn>, c: Conn, stages: set<Stage>)
    requires Tracks(m, conns, stages) && c.stage !in stages
    ensures Tracks(m, conns + [c], stages)
  {}

  /** A connection leaves, and its entry with it. */
  lemma TracksLeave(m: map<int, nat>, conns: seq<Conn>, conns': seq<Conn>, stages: set<Stage>, c: nat)
    requires Tracks(m, conns, stages) && |conns'| == |conns| && c < |conns|
    requires forall k :: 0 <= k < |conns| && k != c ==> conns'[k] == conns[k]
    requires conns[c].stage in stages && conns'[c].stage !in stages && conns'[c].fd == conns[c].fd
    ensures Tracks(m - {conns[c].fd}, conns', stages)
  {
    var fd := conns[c].fd;
    var m' := m - {fd};
    forall k: nat | k < |conns'| && conns'[k].stage in stages
      ensures conns'[k].fd in m' && m'[conns'[k].fd] == k
    {
      assert k != c;
      assert m[conns[k].fd] == k && m[fd] == c;
    }
  }

  // ---------------------------------------------------------------------
  // Every step keeps the invariant
  // ---------------------------------------------------------------------

  /** Closing the descriptor of a connection that is still open reaches that connection. */
  lemma CloseReachesOwner(s: State, c: nat)
    requires Tracks(s.open, s.conns, OPEN) && c < |s.conns| && s.conns[c].stage in OPEN
    ensures CloseCounts(s.conns, s.open, s.conns[c].fd) == s.conns[c := s.conns[c].(closes := s.conns[c].closes + 1)]
  {}

  /** A tracked descriptor names the connection that was admitted under it. */
  lemma TrackedIsOpen(s: State, fd: int)
    requires Inv(s) && fd in s.active
    ensures fd in s.open && s.open[fd] == s.active[fd] && s.active[fd] < |s.conns|
    ensures s.conns[s.active[fd]].stage in TRACKED
  {}

  /** A descriptor just accepted is not tracked. */
  lemma HeldIsFresh(s: State, c: nat)
    requires Inv(s) && At(s, c, Held)
    ensures s.conns[c].fd !in s.active && s.conns[c].fd !in s.remotes
  {
    if s.conns[c].fd in s.active {
      TrackedIsOpen(s, s.conns[c].fd);
    }
  }

  lemma Stages(s: State)
    requires Inv(s)
    ensures s.accept.Holding? ==> At(s, s.accept.held, Held)
    ensures s.accept.Reaping? ==> At(s, s.accept.next, Admitted)
  {}

  /** The steps that change phases and flags only. */
  predicate IsControl(step: Step) {
    || step.Start? || step.LoopTop? || step.AcceptFails? || step.Drained? || step.EndCallback?
    || step.Stop? || step.StopEnds?
  }

  lemma ControlSame(s: State, step: Step)
    requires Enabled(s, step) && IsControl(step)
    ensures var s' := Apply(s, step);
            s'.conns == s.conns && s'.open == s.open && s'.active == s.active && s'.remotes == s.remotes
  {}

  /** Steps other than accepting, admitting and closing leave open and tracked connections as they are. */
  lemma QuietMoves(s: State, step: Step)
    requires Inv(s) && Enabled(s, step) && !step.Accept? && !step.Admit? && !step.Epilogue?
    ensures Apply(s, step).open == s.open && Apply(s, step).active == s.active
    ensures SameFor(s.conns, Apply(s, step).conns, OPEN) && SameFor(s.conns, Apply(s, step).conns, TRACKED)
    ensures !step.Register? && !step.Unregister? ==>
      Apply(s, step).remotes == s.remotes && SameFor(s.conns, Apply(s, step).conns, LISTED)
  {
    hide Inv, Apply;
    if IsControl(step) {
      ControlSame(s, step);
    } else if step.CloseAll? || step.AcceptJoined? {
      CancelMoves(s, step);
    } else {
      WorkerMoves(s, step);
    }
  }

  lemma CancelMoves(s: State, step: Step)
    requires Enabled(s, step) && (step.CloseAll? || step.AcceptJoined?)
    ensures var s' := Apply(s, step);
            && s'.open == s.open && s'.active == s.active && s'.remotes == s.remotes
            && |s'.conns| == |s.conns|
            && forall c :: 0 <= c < |s.conns| ==>
                 && s'.conns[c].fd == s.conns[c].fd && s'.conns[c].stage == s.conns[c].stage
                 && s'.conns[c].closes == s.conns[c].closes && s'.conns[c].joins == s.conns[c].joins
  {
    hide CancelConn;
    forall c | 0 <= c < |s.conns|
      ensures var k := CancelConn(s.conns[c], c, s.open, s.active, s.active.Keys);
              && k.fd == s.conns[c].fd && k.stage == s.conns[c].stage
              && k.closes == s.conns[c].closes && k.joins == s.conns[c].joins
    {
      CancelOne(s.conns[c], c, s.open, s.active);
    }
  }

  lemma CancelOne(c: Conn, i: nat, open: map<int, nat>, active: map<int, nat>)
    ensures var k := CancelConn(c, i, open, active, active.Keys);
            k.fd == c.fd && k.stage == c.stage && k.closes == c.closes && k.joins == c.joins
  {}

  /** The steps that touch one connection. */
  predicate IsTouch(step: Step) {
    || step.Admit? || step.Reap? || step.Spawn? || step.Register? || step.Unregister?
    || step.Epilogue? || step.Flag? || step.JoinWorker?
  }

  /** What a step does to the connection it touches. */
  predicate Moves(step: Step, was: Conn, now: Conn) {
    match step
    case Admit =>
      was.stage.Held? && (now == was.(stage := Admitted) || now == was.(stage := Refused, closes := was.closes + 1))
    case Reap => now == if was.stage.Flagged? then was.(joins := was.joins + 1) else was
    case Spawn => was.stage.Admitted? && now == was.(stage := Started)
    case Register(_) => was.stage.Started? && now == was.(stage := Registered)
    case Unregister(_) => was.stage.Registered? && now == was.(stage := Unregistered)
    case Epilogue(_) => was.stage.Unregistered? && now == was.(stage := Closed, closes := was.closes + 1)
    case Flag(_) => was.stage.Closed? && now == was.(stage := Flagged)
    case JoinWorker => was.stage.Flagged? && now == was.(joins := was.joins + 1)
    case _ => false
  }

  lemma OneTouched(s: State, step: Step) returns (c: nat)
    requires Inv(s) && Enabled(s, step) && IsTouch(step)
    ensures c < |s.conns| == |Apply(s, step).conns|
    ensures Apply(s, step).conns == s.conns[c := Apply(s, step).conns[c]]
    ensures Moves(step, s.conns[c], Apply(s, step).conns[c])
  {
    hide Tracks, JoinsRight, AcceptRight, CallerRight, AllClosedOnce, AllCancelled;
    hide CancelAll, CloseAndForget, Refuse, Take;
    Stages(s);
    match step
    case Admit =>
      c := s.accept.held;
      Admission(s, c);
    case Reap => c := s.workers[s.accept.at];
    case Spawn => c := s.accept.next;
    case Register(d) => c := d;
    case Unregister(d) => c := d;
    case Epilogue(d) =>
      c := d;
      Closing(s, c);
    case Flag(d) => c := d;
    case JoinWorker => c := s.workers[s.caller.index];
  }

  lemma Admission(s: State, c: nat)
    requires Inv(s) && At(s, c, Held)
    ensures Refuse(s, c).conns == s.conns[c := s.conns[c].(stage := Refused, closes := s.conns[c].closes + 1)]
    ensures Take(s, c).conns == s.conns[c := s.conns[c].(stage := Admitted)]
  {
    hide Tracks, JoinsRight, AcceptRight, CallerRight, AllClosedOnce;
    CloseReachesOwner(s, c);
  }

  lemma Closing(s: State, c: nat)
    requires Inv(s) && At(s, c, Unregistered)
    ensures CloseAndForget(s, c).conns == s.conns[c := s.conns[c].(stage := Closed, closes := s.conns[c].closes + 1)]
  {
    hide Tracks, JoinsRight, AcceptRight, CallerRight, AllClosedOnce;
    CloseReachesOwner(s, c);
  }

  lemma WorkerMaps(s: State, step: Step)
    requires Enabled(s, step) && IsTouch(step) && !step.Admit? && !step.Epilogue?
    ensures Apply(s, step).open == s.open && Apply(s, step).active == s.active
    ensures !step.Register? && !step.Unregister? ==> Apply(s, step).remotes == s.remotes
  {
    hide CancelAll, SetStage, Joined, CloseAndForget, Refuse, Take;
  }

  lemma WorkerMoves(s: State, step: Step)
    requires Inv(s) && Enabled(s, step) && IsTouch(step) && !step.Admit? && !step.Epilogue?
    ensures Apply(s, step).open == s.open && Apply(s, step).active == s.active
    ensures SameFor(s.conns, Apply(s, step).conns, OPEN) && SameFor(s.conns, Apply(s, step).conns, TRACKED)
    ensures !step.Register? && !step.Unregister? ==>
      Apply(s, step).remotes == s.remotes && SameFor(s.conns, Apply(s, step).conns, LISTED)
  {
    hide Inv, Apply, Enabled;
    var c := OneTouched(s, step);
    WorkerMaps(s, step);
  }

  ghost predicate SameFor(a: seq<Conn>, b: seq<Conn>, stages: set<Stage>) {
    |b| == |a| && forall c :: 0 <= c < |a| ==> b[c].fd == a[c].fd && (b[c].stage in stages <==> a[c].stage in stages)
  }

  lemma OpenKept(s: State, step: Step)
    requires Inv(s) && Enabled(s, step)
    ensures Tracks(Apply(s, step).open, Apply(s, step).conns, OPEN)
  {
    hide Tracks, JoinsRight, AcceptRight, CallerRight, AllClosedOnce;
    Stages(s);
    var conns' := Apply(s, step).conns;
    if step.Accept? {
      TracksEnter(s.open, s.conns, conns', OPEN, |s.conns|);
    } else if step.Admit? {
      CloseReachesOwner(s, s.accept.held);
      if !s.running || s.disconnecting {
        TracksLeave(s.open, s.conns, conns', OPEN, s.accept.held);
      } else {
        TracksSame(s.open, s.conns, conns', OPEN);
      }
    } else if step.Epilogue? {
      CloseReachesOwner(s, step.c);
      TracksLeave(s.open, s.conns, conns', OPEN, step.c);
    } else {
      MapsKeptQuietly(s, step);
    }
  }

  lemma MapsKeptQuietly(s: State, step: Step)
    requires Inv(s) && Enabled(s, step) && !step.Accept? && !step.Admit? && !step.Epilogue?
    ensures Tracks(Apply(s, step).open, Apply(s, step).conns, OPEN)
    ensures Tracks(Apply(s, step).active, Apply(s, step).conns, TRACKED)
    ensures !step.Register? && !step.Unregister? ==> Tracks(Apply(s, step).remotes, Apply(s, step).conns, LISTED)
  {
    hide Apply, Enabled, Tracks, JoinsRight, AcceptRight, CallerRight, AllClosedOnce;
    QuietMoves(s, step);
    var conns' := Apply(s, step).conns;
    TracksSame(s.open, s.conns, conns', OPEN);
    TracksSame(s.active, s.conns, conns', TRACKED);
    if !step.Register? && !step.Unregister? {
      TracksSame(s.remotes, s.conns, conns', LISTED);
    }
  }

  lemma ActiveKept(s: State, step: Step)
    requires Inv(s) && Enabled(s, step)
    ensures Tracks(Apply(s, step).active, Apply(s, step).conns, TRACKED)
  {
    hide Tracks, JoinsRight, AcceptRight, CallerRight, AllClosedOnce;
    Stages(s);
    var conns' := Apply(s, step).conns;
    if step.Accept? {
      TracksGrow(s.active, s.conns, conns'[|s.conns|], TRACKED);
    } else if step.Admit? {
      CloseReachesOwner(s, s.accept.held);
      HeldIsFresh(s, s.accept.held);
      if !s.running || s.disconnecting {
        TracksSame(s.active, s.conns, conns', TRACKED);
      } else {
        TracksEnter(s.active, s.conns, conns', TRACKED, s.accept.held);
      }
    } else if step.Epilogue? {
      CloseReachesOwner(s, step.c);
      TracksLeave(s.active, s.conns, conns', TRACKED, step.c);
    } else {
      MapsKeptQuietly(s, step);
    }
  }

  lemma RemotesKept(s: State, step: Step)
    requires Inv(s) && Enabled(s, step)
    ensures Tracks(Apply(s, step).remotes, Apply(s, step).conns, LISTED)
  {
    hide Tracks, JoinsRight, AcceptRight, CallerRight, AllClosedOnce;
    Stages(s);
    var conns' := Apply(s, step).conns;
    if step.Accept? {
      TracksGrow(s.remotes, s.conns, conns'[|s.conns|], LISTED);
    } else if step.Admit? {
      CloseReachesOwner(s, s.accept.held);
      TracksSame(s.remotes, s.conns, conns', LISTED);
    } else if step.Epilogue? {
      CloseReachesOwner(s, step.c);
      TracksSame(s.remotes, s.conns, conns', LISTED);
    } else if step.Register? {
      UnlistedIsFresh(s, step.c);
      TracksEnter(s.remotes, s.conns, conns', LISTED, step.c);
    } else if step.Unregister? {
      TracksLeave(s.remotes, s.conns, conns', LISTED, step.c);
    } else {
      MapsKeptQuietly(s, step);
    }
  }

  /** No listed remote stands under the descriptor of an open connection that has not listed one. */
  lemma UnlistedIsFresh(s: State, c: nat)
    requires Inv(s) && At(s, c, Started)
    ensures s.conns[c].fd !in s.remotes
  {}

  lemma ClosedKept(s: State, step: Step)
    requires Inv(s) && Enabled(s, step)
    ensures AllClosedOnce(Apply(s, step).conns)
  {
    hide Tracks, JoinsRight, AcceptRight, CallerRight, Apply, Enabled;
    if IsControl(step) {
      ControlSame(s, step);
    } else if step.CloseAll? || step.AcceptJoined? {
      CancelMoves(s, step);
    } else if step.Accept? {
      Arrival(s, step.fd);
    } else {
      var c := OneTouched(s, step);
      assert ClosedOnce(s.conns[c]);
    }
  }

  lemma Arrival(s: State, fd: int)
    requires Enabled(s, Accept(fd))
    ensures var s' := Apply(s, Accept(fd));
            && s'.conns == s.conns + [Conn(fd, Held, false, 0, 0, 0)] && s'.accept == Holding(|s.conns|)
            && s'.workers == s.workers && s'.caller == s.caller && s'.disconnecting == s.disconnecting
            && s'.running == s.running && s'.active == s.active && s.accept.InAccept?
  {}

  /** Threads and joins of all connections are what they were. */
  lemma JoinsFrame(a: seq<Conn>, b: seq<Conn>, workers: seq<nat>, upTo: nat)
    requires JoinsRight(a, workers, upTo) && |a| == |b|
    requires forall c :: 0 <= c < |a| ==> b[c].joins == a[c].joins && ThreadOf(b[c].stage) == ThreadOf(a[c].stage)
    ensures JoinsRight(b, workers, upTo)
  {
    forall i | 0 <= i < |workers|
      ensures workers[i] < |b| && Listed(b[workers[i]], i < upTo)
    {
      assert Listed(a[workers[i]], i < upTo);
    }
    forall c: nat | c < |b| && c !in workers
      ensures Settled(b[c])
    {
      assert Settled(a[c]);
    }
  }

  lemma JoinsGrow(a: seq<Conn>, c: Conn, workers: seq<nat>, upTo: nat)
    requires JoinsRight(a, workers, upTo) && Settled(c)
    ensures JoinsRight(a + [c], workers, upTo)
  {}

  /** A new worker. */
  lemma JoinsSpawn(a: seq<Conn>, workers: seq<nat>, c: nat)
    requires JoinsRight(a, workers, 0) && c < |a| && ThreadOf(a[c].stage).NoThread?
    ensures JoinsRight(SetStage(a, c, Started), workers + [c], 0)
  {
  }

  /** A worker ends; it is still listed. */
  lemma JoinsFlag(a: seq<Conn>, workers: seq<nat>, upTo: nat, c: nat)
    requires JoinsRight(a, workers, upTo) && c < |a| && ThreadOf(a[c].stage).Live?
    ensures JoinsRight(SetStage(a, c, Flagged), workers, upTo)
  {
    var b := SetStage(a, c, Flagged);
    forall i | 0 <= i < |workers|
      ensures workers[i] < |b| && Listed(b[workers[i]], i < upTo)
    {
      assert Listed(a[workers[i]], i < upTo);
    }
  }

  /** Reaping joins one ended thread and forgets it. */
  lemma JoinsReap(a: seq<Conn>, workers: seq<nat>, i: nat)
    requires JoinsRight(a, workers, 0) && i < |workers|
    requires workers[i] < |a| && ThreadOf(a[workers[i]].stage).Ended?
    ensures JoinsRight(Joined(a, workers[i]), workers[..i] + workers[i + 1..], 0)
  {
    var c, b, rest := workers[i], Joined(a, workers[i]), workers[..i] + workers[i + 1..];
    assert Listed(a[workers[i]], i < 0);
    forall k | 0 <= k < |rest|
      ensures rest[k] != c && rest[k] < |b| && Listed(b[rest[k]], k < 0)
    {
      var j := if k < i then k else k + 1;
      assert rest[k] == workers[j];
      assert Listed(a[workers[j]], j < 0);
    }
    forall d: nat | d < |b| && d !in rest
      ensures Settled(b[d])
    {
      if d != c {
        NotElsewhere(workers, i, d);
        assert Settled(a[d]);
      }
    }
  }

  lemma NotElsewhere(workers: seq<nat>, i: nat, d: nat)
    requires i < |workers| && d != workers[i] && d !in workers[..i] + workers[i + 1..]
    ensures d !in workers
  {
    assert workers == workers[..i] + [workers[i]] + workers[i + 1..];
  }

  /** `stop` joins the next listed thread. */
  lemma JoinsNext(a: seq<Conn>, workers: seq<nat>, i: nat)
    requires JoinsRight(a, workers, i) && i < |workers|
    requires workers[i] < |a| && ThreadOf(a[workers[i]].stage).Ended?
    ensures JoinsRight(Joined(a, workers[i]), workers, i + 1)
  {
    var b := Joined(a, workers[i]);
    forall k | 0 <= k < |workers|
      ensures workers[k] < |b| && Listed(b[workers[k]], k < i + 1)
    {
      assert Listed(a[workers[k]], k < i);
    }
  }

  /** All listed threads have been joined: the list can go. */
  lemma JoinsDone(a: seq<Conn>, workers: seq<nat>, upTo: nat)
    requires JoinsRight(a, workers, upTo) && upTo >= |workers|
    ensures JoinsRight(a, [], 0)
  {
    forall c: nat | c < |a|
      ensures Settled(a[c])
    {
      if c in workers {
        var i :| 0 <= i < |workers| && workers[i] == c;
        assert Listed(a[workers[i]], i < upTo);
      }
    }
  }

  lemma JoinsKept(s: State, step: Step)
    requires Inv(s) && Enabled(s, step)
    ensures JoinsRight(Apply(s, step).conns, Apply(s, step).workers, JoinedUpTo(Apply(s, step).caller))
  {
    hide Tracks, JoinsRight, AcceptRight, AllClosedOnce, AllCancelled;
    Stages(s);
    var conns' := Apply(s, step).conns;
    var upTo := JoinedUpTo(s.caller);
    if IsControl(step) {
      ControlSame(s, step);
      if step.StopEnds? {
        JoinsDone(s.conns, s.workers, s.caller.index);
      }
    } else if step.CloseAll? || step.AcceptJoined? {
      CancelMoves(s, step);
      JoinsFrame(s.conns, conns', s.workers, upTo);
    } else if step.Admit? {
      CloseReachesOwner(s, s.accept.held);
      JoinsFrame(s.conns, conns', s.workers, upTo);
    } else {
      ThreadsKept(s, step);
    }
  }

  lemma ThreadsKept(s: State, step: Step)
    requires Inv(s) && Enabled(s, step) && !IsControl(step)
    requires !step.CloseAll? && !step.AcceptJoined? && !step.Admit?
    ensures JoinsRight(Apply(s, step).conns, Apply(s, step).workers, JoinedUpTo(Apply(s, step).caller))
  {
    hide Tracks, JoinsRight, AcceptRight, AllClosedOnce, AllCancelled, CancelAll;
    Stages(s);
    var conns' := Apply(s, step).conns;
    var upTo := JoinedUpTo(s.caller);
    if step.Accept? {
      JoinsGrow(s.conns, conns'[|s.conns|], s.workers, upTo);
    } else if step.Epilogue? {
      CloseReachesOwner(s, step.c);
      JoinsFrame(s.conns, conns', s.workers, upTo);
    } else if step.Reap? {
      if s.conns[s.workers[s.accept.at]].stage.Flagged? {
        JoinsReap(s.conns, s.workers, s.accept.at);
      }
    } else if step.Spawn? {
      JoinsSpawn(s.conns, s.workers, s.accept.next);
    } else if step.Flag? {
      JoinsFlag(s.conns, s.workers, upTo, step.c);
    } else if step.JoinWorker? {
      JoinsNext(s.conns, s.workers, s.caller.index);
    } else {
      JoinsFrame(s.conns, conns', s.workers, upTo);
    }
  }

  /** The accept thread's phase after a step of somebody else, or of its reaping loop. */
  lemma AcceptPhase(s: State, step: Step)
    requires Enabled(s, step)
    ensures var a := Apply(s, step).accept;
            && (step.Admit? ==> s.accept.Holding? && (a == Top || a == Reaping(s.accept.held, 0)))
            && (step.Admit? ==> (a == Top <==> !s.running || s.disconnecting))
            && (step.Spawn? ==> a == Top)
            && (step.Reap? ==> s.accept.Reaping? && a.Reaping? && a.next == s.accept.next)
            && (IsTouch(step) && !step.Admit? && !step.Spawn? && !step.Reap? ==> a == s.accept)
            && (step.CloseAll? || step.AcceptJoined? ==> a == s.accept)
  {
    hide CancelAll;
  }

  lemma AcceptKept(s: State, step: Step)
    requires Inv(s) && Enabled(s, step)
    ensures AcceptRight(Apply(s, step))
  {
    hide Tracks, JoinsRight, CallerRight, AllClosedOnce, Apply, Enabled;
    if IsControl(step) {
      AcceptControl(s, step);
    } else if step.Accept? {
      Arrival(s, step.fd);
    } else if step.Admit? || step.Spawn? {
      AcceptAdvances(s, step);
    } else if step.CloseAll? || step.AcceptJoined? {
      AcceptPhase(s, step);
      CancelMoves(s, step);
    } else {
      AcceptPhase(s, step);
      var c := OneTouched(s, step);
    }
  }

  lemma AcceptControl(s: State, step: Step)
    requires Inv(s) && Enabled(s, step) && IsControl(step)
    ensures AcceptRight(Apply(s, step))
  {
    hide Tracks, JoinsRight, AllClosedOnce, CancelAll;
    ControlSame(s, step);
  }

  lemma AcceptAdvances(s: State, step: Step)
    requires Inv(s) && Enabled(s, step) && (step.Admit? || step.Spawn?)
    ensures AcceptRight(Apply(s, step))
  {
    hide Tracks, JoinsRight, CallerRight, AllClosedOnce;
    Stages(s);
    if step.Admit? {
      CloseReachesOwner(s, s.accept.held);
    }
  }

  /** All tracked clients are cancelled when the cancelling loop ends. */
  lemma CancelReachesAll(s: State, conns': seq<Conn>)
    requires Tracks(s.active, s.conns, TRACKED) && conns' == CancelAll(s.conns, s.open, s.active)
    ensures forall c: nat :: c < |conns'| && conns'[c].stage in TRACKED ==> conns'[c].cancelled
  {
    forall c: nat | c < |conns'| && conns'[c].stage in TRACKED
      ensures conns'[c].cancelled
    {
      assert s.conns[c].fd in s.active.Keys && s.active[s.conns[c].fd] == c;
    }
  }

  /** Leaving all flags and phases, and cancelling no less, keeps the caller's part. */
  lemma CallerFrame(s: State, s': State)
    requires CallerRight(s) && s'.caller == s.caller && s'.disconnecting == s.disconnecting && s'.running == s.running
    requires s.accept.Exited? ==> s'.accept.Exited?
    requires s.active == map[] && (s.disconnecting || !s.running) ==> s'.active == map[]
    requires s.workers == [] && s.accept.Exited? ==> s'.workers == []
    requires s.caller.Joining? ==> |s'.workers| == |s.workers|
    requires s.disconnecting ==> AllCancelled(s')
    ensures CallerRight(s')
  {
    hide AllCancelled;
  }

  lemma CallerParts(s: State, step: Step)
    requires Inv(s) && Enabled(s, step) && (IsTouch(step) || step.Accept?) && !step.JoinWorker?
    ensures var s' := Apply(s, step);
            && s'.caller == s.caller && s'.disconnecting == s.disconnecting && s'.running == s.running
            && (s.accept.Exited? ==> s'.accept.Exited?)
            && (s.workers == [] && s.accept.Exited? ==> s'.workers == [])
            && (s.caller.Joining? ==> s'.workers == s.workers)
            && (s'.active.Keys <= s.active.Keys || (s.running && !s.disconnecting && step.Admit?))
  {
    hide Tracks, JoinsRight, AllClosedOnce, CancelAll, AllCancelled, CloseCounts, SetStage;
  }

  lemma CancelledKept(s: State, step: Step)
    requires Inv(s) && Enabled(s, step) && (IsTouch(step) || step.Accept?) && s.disconnecting
    ensures AllCancelled(Apply(s, step))
  {
    hide Tracks, JoinsRight, AcceptRight, AllClosedOnce, CancelAll;
    if step.Accept? {
    } else {
      AcceptPhase(s, step);
      var c := OneTouched(s, step);
      if step.Admit? {
        CloseReachesOwner(s, s.accept.held);
      }
    }
  }

  lemma CallerKept(s: State, step: Step)
    requires Inv(s) && Enabled(s, step)
    ensures CallerRight(Apply(s, step))
  {
    hide Tracks, JoinsRight, AllClosedOnce, CancelAll;
    if IsControl(step) {
      ControlSame(s, step);
    } else if step.CloseAll? || step.AcceptJoined? {
      CancelReachesAll(s, Apply(s, step).conns);
    } else if step.JoinWorker? {
    } else {
      hide Apply, Enabled, AllCancelled;
      CallerParts(s, step);
      if s.disconnecting {
        CancelledKept(s, step);
      }
      CallerFrame(s, Apply(s, step));
    }
  }

  lemma StepKeeps(s: State, step: Step)
    requires Inv(s) && Enabled(s, step)
    ensures Inv(Apply(s, step))
  {
    hide Apply, Enabled, Tracks, JoinsRight, AcceptRight, CallerRight, AllClosedOnce;
    OpenKept(s, step);
    ActiveKept(s, step);
    RemotesKept(s, step);
    ClosedKept(s, step);
    JoinsKept(s, step);
    AcceptKept(s, step);
    CallerKept(s, step);
  }

  // ---------------------------------------------------------------------
  // Disconnecting reaches every tracked client once
  // ---------------------------------------------------------------------

  /** A connection has been shut down exactly if it has been cancelled, and nobody is cancelled before a disconnect. */
  predicate ShutRight(c: Conn, disconnecting: bool) {
    && c.shutdowns == (if c.cancelled then 1 else 0)
    && (c.stage.Held? || (c.stage in TRACKED && !disconnecting) ==> !c.cancelled)
  }

  ghost predicate AllShutRight(s: State) {
    forall c :: 0 <= c < |s.conns| ==> ShutRight(s.conns[c], s.disconnecting)
  }

  /** The descriptors whose shutdown reaches connection `c`: its own if it is tracked, none otherwise. */
  lemma ShutdownReaches(s: State, c: nat)
    requires Inv(s) && c < |s.conns|
    ensures ShutBy(c, s.open, s.active.Keys) == if s.conns[c].stage in TRACKED then {s.conns[c].fd} else {}
  {
    hide JoinsRight, AcceptRight, CallerRight, AllClosedOnce;
    forall fd | fd in ShutBy(c, s.open, s.active.Keys)
      ensures fd == s.conns[c].fd && s.conns[c].stage in TRACKED
    {
      TrackedIsOpen(s, fd);
    }
  }

  /**
    Main result on disconnecting: exactly the tracked clients get the cancelled flag,
    and `shutdown` reaches each of them once and no other connection.
   */
  lemma CancelIsExact(s: State, c: nat)
    requires Inv(s) && c < |s.conns|
    ensures var k, tracked := CancelAll(s.conns, s.open, s.active)[c], s.conns[c].stage in TRACKED;
            && k.cancelled == (s.conns[c].cancelled || tracked)
            && k.shutdowns == s.conns[c].shutdowns + if tracked then 1 else 0
  {
    hide JoinsRight, AcceptRight, CallerRight, AllClosedOnce;
    ShutdownReaches(s, c);
    if s.conns[c].stage in TRACKED {
      assert s.conns[c].fd in s.active.Keys && s.active[s.conns[c].fd] == c;
    }
  }

  lemma ShutKept(s: State, step: Step)
    requires Inv(s) && AllShutRight(s) && Enabled(s, step)
    ensures AllShutRight(Apply(s, step))
  {
    hide Tracks, JoinsRight, AcceptRight, AllClosedOnce, Apply, Enabled;
    if IsControl(step) {
      ControlSame(s, step);
      FlagAfterControl(s, step);
    } else if step.CloseAll? || step.AcceptJoined? {
      FlagAfterCancel(s, step);
      forall c: nat | c < |s.conns|
        ensures ShutRight(Apply(s, step).conns[c], true)
      {
        CancelIsExact(s, c);
        CancelMoves(s, step);
      }
    } else if step.Accept? {
      Arrival(s, step.fd);
    } else {
      var c := OneTouched(s, step);
      FlagAfterTouch(s, step);
      AcceptPhase(s, step);
      assert ShutRight(s.conns[c], s.disconnecting);
      if step.Admit? && s.disconnecting {
        RefusedWhileDraining(s, c);
      }
    }
  }

  /** While clients are being drained, an arriving connection is refused. */
  lemma RefusedWhileDraining(s: State, c: nat)
    requires Enabled(s, Admit) && s.disconnecting && c < |s.conns|
    requires Apply(s, Admit).conns == s.conns[c := Apply(s, Admit).conns[c]]
    requires Moves(Admit, s.conns[c], Apply(s, Admit).conns[c])
    ensures Apply(s, Admit).conns[c].stage.Refused?
  {
    assert Apply(s, Admit).conns[s.accept.held].stage.Refused?;
    assert Moves(Admit, s.conns[c], Apply(s, Admit).conns[c]);
  }

  lemma FlagAfterControl(s: State, step: Step)
    requires Inv(s) && Enabled(s, step) && IsControl(step)
    ensures Apply(s, step).disconnecting == (s.disconnecting && !step.EndCallback?)
    ensures s.disconnecting && step.EndCallback? ==> forall c :: 0 <= c < |s.conns| ==> s.conns[c].stage !in TRACKED
  {
    hide JoinsRight, AcceptRight, AllClosedOnce, AllCancelled;
  }

  lemma FlagAfterCancel(s: State, step: Step)
    requires Inv(s) && Enabled(s, step) && (step.CloseAll? || step.AcceptJoined?)
    ensures Apply(s, step).disconnecting && !s.disconnecting
    ensures Apply(s, step).conns == CancelAll(s.conns, s.open, s.active)
  {
    hide Tracks, JoinsRight, AcceptRight, AllClosedOnce, AllCancelled, CancelAll;
  }

  lemma FlagAfterTouch(s: State, step: Step)
    requires Enabled(s, step) && IsTouch(step)
    ensures Apply(s, step).disconnecting == s.disconnecting
  {
    hide CancelAll, SetStage, Joined, CloseCounts;
  }

  // ---------------------------------------------------------------------
  // Runs
  // ---------------------------------------------------------------------

  ghost predicate Runs(s: State, steps: seq<Step>, t: State)
    decreases |steps|
  {
    if steps == [] then s == t else Enabled(s, steps[0]) && Runs(Apply(s, steps[0]), steps[1..], t)
  }

  lemma {:induction false} RunsKeep(s: State, steps: seq<Step>, t: State)
    requires Inv(s) && AllShutRight(s) && Runs(s, steps, t)
    ensures Inv(t) && AllShutRight(t)
    decreases |steps|
  {
    hide Inv, AllShutRight, Apply, Enabled;
    if steps != [] {
      StepKeeps(s, steps[0]);
      ShutKept(s, steps[0]);
      RunsKeep(Apply(s, steps[0]), steps[1..], t);
    }
  }

  /** Some descriptor still names the connection. */
  ghost predicate NamedByFd(s: State, c: nat) {
    exists fd :: fd in s.open && s.open[fd] == c
  }

  /** What a user of the server can rely on. */
  ghost predicate Safe(s: State) {
    && (forall c: Conn :: c in s.conns ==> c.closes <= 1 && c.shutdowns <= 1 && c.joins <= 1)
    && (forall c: nat :: c < |s.conns| ==> (s.conns[c].closes == 0 <==> NamedByFd(s, c)))
    && (forall fd :: fd in s.active ==> fd in s.open && s.open[fd] == s.active[fd])
    && (forall fd :: fd in s.remotes ==> fd in s.active && s.active[fd] == s.remotes[fd])
    && (s.disconnecting ==> forall fd :: fd in s.active ==> s.active[fd] < |s.conns| && s.conns[s.active[fd]].cancelled)
    && (s.caller.Callback? ==> forall c: Conn :: c in s.conns ==> c.stage !in HANDLING)
  }

  lemma JoinsBounded(conns: seq<Conn>, workers: seq<nat>, upTo: nat, c: nat)
    requires JoinsRight(conns, workers, upTo) && c < |conns|
    ensures conns[c].joins <= 1
  {
    if c in workers {
      var i :| 0 <= i < |workers| && workers[i] == c;
      assert Listed(conns[workers[i]], i < upTo);
    } else {
      assert Settled(conns[c]);
    }
  }

  lemma RemoteIsTracked(s: State, fd: int)
    requires Inv(s) && fd in s.remotes
    ensures fd in s.active && s.active[fd] == s.remotes[fd]
  {
    hide JoinsRight, AcceptRight, CallerRight, AllClosedOnce;
  }

  lemma OpenIsUnclosed(s: State, c: nat)
    requires Inv(s) && c < |s.conns|
    ensures s.conns[c].closes <= 1 && (s.conns[c].closes == 0 <==> NamedByFd(s, c))
  {
    hide JoinsRight, AcceptRight, CallerRight;
    assert ClosedOnce(s.conns[c]);
    if s.conns[c].stage in OPEN {
      assert s.conns[c].fd in s.open && s.open[s.conns[c].fd] == c;
    }
  }

  lemma NobodyHandles(s: State, c: nat)
    requires Inv(s) && s.caller.Callback? && c < |s.conns|
    ensures s.conns[c].stage !in HANDLING
  {
    hide JoinsRight, AcceptRight, AllClosedOnce, AllCancelled;
  }

  /**
    Main result: after every run, under every interleaving and every reuse of
    descriptors, each accepted socket has been closed exactly once if it is no longer
    open and not at all if it is; a tracked descriptor, and so every `shutdown`, and a
    listed remote belong to the connection admitted under that descriptor; during a
    disconnect every tracked client is cancelled; no handler runs during the callback;
    and no thread is joined twice.
   */
  lemma EveryRunIsSafe(steps: seq<Step>, s: State)
    requires Runs(INITIAL, steps, s)
    ensures Safe(s)
  {
    hide Tracks, JoinsRight, AcceptRight, AllClosedOnce;
    InitialHolds();
    RunsKeep(INITIAL, steps, s);
    forall c: nat | c < |s.conns|
      ensures s.conns[c].closes <= 1 && s.conns[c].shutdowns <= 1 && s.conns[c].joins <= 1
      ensures s.conns[c].closes == 0 <==> NamedByFd(s, c)
      ensures s.caller.Callback? ==> s.conns[c].stage !in HANDLING
    {
      OpenIsUnclosed(s, c);
      JoinsBounded(s.conns, s.workers, JoinedUpTo(s.caller), c);
      assert ShutRight(s.conns[c], s.disconnecting);
      if s.caller.Callback? {
        NobodyHandles(s, c);
      }
    }
    forall fd | fd in s.active
      ensures fd in s.open && s.open[fd] == s.active[fd]
      ensures s.disconnecting ==> s.active[fd] < |s.conns| && s.conns[s.active[fd]].cancelled
    {
      TrackedIsOpen(s, fd);
    }
    forall fd | fd in s.remotes
      ensures fd in s.active && s.active[fd] == s.remotes[fd]
    {
      RemoteIsTracked(s, fd);
    }
  }

  /** Admission always inserts a fresh key, so `emplace` never meets an old entry. */
  lemma AdmissionInserts(steps: seq<Step>, s: State)
    requires Runs(INITIAL, steps, s) && Enabled(s, Admit) && s.running && !s.disconnecting
    ensures s.conns[s.accept.held].fd !in s.active
    ensures Apply(s, Admit).active == s.active[s.conns[s.accept.held].fd := s.accept.held]
  {
    InitialHolds();
    RunsKeep(INITIAL, steps, s);
    Stages(s);
    HeldIsFresh(s, s.accept.held);
  }

  /** No handler starts before the callback returns. */
  lemma NobodyStartsDuringCallback(steps: seq<Step>, s: State, step: Step)
    requires Runs(INITIAL, steps, s) && s.caller.Callback? && Enabled(s, step) && !step.EndCallback?
    ensures Apply(s, step).caller.Callback?
    ensures forall c :: 0 <= c < |Apply(s, step).conns| ==> Apply(s, step).conns[c].stage !in HANDLING
  {
    hide Inv;
    InitialHolds();
    RunsKeep(INITIAL, steps, s);
    StepKeeps(s, step);
    forall c: nat | c < |Apply(s, step).conns|
      ensures Apply(s, step).conns[c].stage !in HANDLING
    {
      NobodyHandles(Apply(s, step), c);
    }
  }

  /** The reaping loop joins and forgets exactly the workers that have finished, and passes the others. */
  lemma ReapingIsExact(s: State)
    requires Inv(s) && Enabled(s, Reap)
    ensures var w, t := s.workers[s.accept.at], Apply(s, Reap);
            && (w in t.workers <==> !s.conns[w].stage.Flagged?)
            && t.conns[w].joins == s.conns[w].joins + (if s.conns[w].stage.Flagged? then 1 else 0)
            && (forall v :: v in s.workers && v != w ==> v in t.workers)
            && t.accept == Reaping(s.accept.next, if s.conns[w].stage.Flagged? then s.accept.at else s.accept.at + 1)
  {
    hide Tracks, AcceptRight, CallerRight, AllClosedOnce;
    OneOut(s.workers, s.accept.at);
  }

  /** Taking one of several different things out of a list leaves the others. */
  lemma OneOut(q: seq<nat>, i: nat)
    requires i < |q| && forall j, k :: 0 <= j < k < |q| ==> q[j] != q[k]
    ensures q[i] !in q[..i] + q[i + 1..]
    ensures forall v :: v in q && v != q[i] ==> v in q[..i] + q[i + 1..]
  {
    var rest := q[..i] + q[i + 1..];
    forall v | v in q && v != q[i]
      ensures v in rest
    {
      var j :| 0 <= j < |q| && q[j] == v;
      assert rest[if j < i then j else j - 1] == v;
    }
  }

  /** A client that arrives is served, not refused, if and only if the server runs and nobody is being disconnected. */
  lemma ServedExactly(steps: seq<Step>, s: State)
    requires Runs(INITIAL, steps, s) && Enabled(s, Admit)
    ensures var c, t := s.accept.held, Apply(s, Admit);
            && (t.conns[c].stage.Admitted? <==> s.running && !s.disconnecting)
            && (t.conns[c].stage.Refused? <==> !s.running || s.disconnecting)
            && (t.conns[c].stage.Refused? ==> t.conns[c].closes == 1 && s.conns[c].fd !in t.open)
            && (t.conns[c].stage.Admitted? ==> t.accept == Reaping(c, 0))
  {
    InitialHolds();
    RunsKeep(INITIAL, steps, s);
    Stages(s);
    Admission(s, s.accept.held);
    assert ClosedOnce(s.conns[s.accept.held]);
  }

  /** At the top of its loop the accept thread goes on if and only if the server runs. */
  lemma AcceptsExactlyWhileRunning(s: State)
    requires Enabled(s, LoopTop)
    ensures Apply(s, LoopTop) == s.(accept := Apply(s, LoopTop).accept)
    ensures (Apply(s, LoopTop).accept.InAccept? <==> s.running) && (Apply(s, LoopTop).accept.Exited? <==> !s.running)
  {}

  /** The first client: how it comes to be tracked, served and listed. */
  function FirstVisit(fd: int): seq<Step> {
    [Start, LoopTop, Accept(fd), Admit, Spawn, Register(0)]
  }

  /** The state after the first `k` of these steps. */
  function Visited(fd: int, k: nat): State {
    var open, accept := map[fd := 0], if k == 1 || k >= 5 then Top else if k == 2 then InAccept
                                      else if k == 3 then Holding(0) else if k == 4 then Reaping(0, 0) else Exited;
    var stage := if k == 3 then Held else if k == 4 then Admitted else if k == 5 then Started else Registered;
    State(if k < 3 then [] else [Conn(fd, stage, false, 0, 0, 0)],
          if k < 3 then map[] else open, if k < 4 then map[] else open, if k < 6 then map[] else open,
          if k < 5 then [] else [0], accept, k > 0, false, Idle)
  }

  lemma VisitBegins(fd: int, k: nat)
    requires k < 3
    ensures Enabled(Visited(fd, k), FirstVisit(fd)[k])
    ensures Apply(Visited(fd, k), FirstVisit(fd)[k]) == Visited(fd, k + 1)
  {}

  lemma VisitGoesOn(fd: int, k: nat)
    requires 3 <= k < 6
    ensures Enabled(Visited(fd, k), FirstVisit(fd)[k])
    ensures Apply(Visited(fd, k), FirstVisit(fd)[k]) == Visited(fd, k + 1)
  {}

  lemma {:induction false} VisitFrom(fd: int, k: nat)
    requires k <= 6
    ensures Runs(Visited(fd, k), FirstVisit(fd)[k..], Visited(fd, 6))
    decreases 6 - k
  {
    hide Visited, Enabled, Apply;
    if k < 6 {
      if k < 3 {
        VisitBegins(fd, k);
      } else {
        VisitGoesOn(fd, k);
      }
      VisitFrom(fd, k + 1);
      assert FirstVisit(fd)[k..][1..] == FirstVisit(fd)[k + 1..];
      OneStep(Visited(fd, k), FirstVisit(fd)[k..], Visited(fd, k + 1), Visited(fd, 6));
    }
  }

  lemma FirstClientIsServed(fd: int)
    ensures var open := map[fd := 0];
            Runs(INITIAL, FirstVisit(fd),
                 State([Conn(fd, Registered, false, 0, 0, 0)], open, open, open, [0], Top, true, false, Idle))
  {
    hide Runs;
    VisitFrom(fd, 0);
    assert FirstVisit(fd)[0..] == FirstVisit(fd);
  }

  lemma OneStep(s: State, steps: seq<Step>, next: State, t: State)
    requires steps != [] && Enabled(s, steps[0]) && Apply(s, steps[0]) == next
    ensures Runs(next, steps[1..], t) ==> Runs(s, steps, t)
  {}

  /** While clients are drained no descriptor becomes tracked, so the wait is for a shrinking set. */
  lemma DrainingOnlyShrinks(steps: seq<Step>, s: State, step: Step)
    requires Runs(INITIAL, steps, s) && s.disconnecting && Enabled(s, step)
    ensures Apply(s, step).active.Keys <= s.active.Keys
    ensures step.Epilogue? ==> |Apply(s, step).active.Keys| < |s.active.Keys|
  {
    hide Tracks, JoinsRight, AcceptRight, AllClosedOnce, AllCancelled;
    InitialHolds();
    RunsKeep(INITIAL, steps, s);
    if step.Epilogue? {
      EpilogueRemoves(s, step.c);
    } else if !step.Admit? && !step.Accept? {
      QuietMoves(s, step);
    }
  }

  lemma EpilogueRemoves(s: State, c: nat)
    requires Inv(s) && Enabled(s, Epilogue(c))
    ensures Apply(s, Epilogue(c)).active.Keys == s.active.Keys - {s.conns[c].fd}
    ensures s.conns[c].fd in s.active.Keys
    ensures |s.active.Keys - {s.conns[c].fd}| < |s.active.Keys|
  {
    hide JoinsRight, AcceptRight, CallerRight, AllClosedOnce;
  }

  /**
    After `stop` nothing is left: every accepted socket has been closed once, every
    worker thread has been joined once, and all tables are empty.
   */
  lemma StoppedIsClean(steps: seq<Step>, s: State)
    requires Runs(INITIAL, steps, s) && Enabled(s, StopEnds)
    ensures var t := Apply(s, StopEnds);
            && t.open == map[] && t.active == map[] && t.remotes == map[] && t.workers == []
            && forall c :: 0 <= c < |t.conns| ==>
                 t.conns[c].closes == 1 && t.conns[c].joins == if t.conns[c].stage.Refused? then 0 else 1
  {
    InitialHolds();
    RunsKeep(INITIAL, steps, s);
    StepKeeps(s, StopEnds);
    var t := Apply(s, StopEnds);
    Stopped(t);
  }

  lemma Stopped(t: State)
    requires Inv(t) && !t.running && t.caller.Idle?
    ensures t.open == map[] && t.active == map[] && t.remotes == map[] && t.workers == []
    ensures forall c :: 0 <= c < |t.conns| ==>
              t.conns[c].closes == 1 && t.conns[c].joins == if t.conns[c].stage.Refused? then 0 else 1
  {
    hide AllCancelled;
    forall c: nat | c < |t.conns|
      ensures t.conns[c].stage in {Refused, Flagged}
    {
      assert Settled(t.conns[c]);
    }
    NothingTracked(t.open, t.conns, OPEN);
    NothingTracked(t.remotes, t.conns, LISTED);
    forall c: nat | c < |t.conns|
      ensures t.conns[c].closes == 1 && t.conns[c].joins == if t.conns[c].stage.Refused? then 0 else 1
    {
      assert Settled(t.conns[c]) && ClosedOnce(t.conns[c]);
    }
  }

  lemma NothingTracked(m: map<int, nat>, conns: seq<Conn>, stages: set<Stage>)
    requires Tracks(m, conns, stages)
    requires forall c :: 0 <= c < |conns| ==> conns[c].stage !in stages
    ensures m == map[]
  {
    assert forall fd :: fd !in m;
    assert m.Keys == {};
  }
}
