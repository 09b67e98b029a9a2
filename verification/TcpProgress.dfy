/**
  Disconnecting and stopping come to an end: while a caller waits some thread can act, and
  without new calls and new connections the threads cannot act for ever.
 */
module TcpProgress {
  import opened TcpServers
  import opened TcpSafety

  /** A step of a thread of the server, not a new call or a new connection. */
  predicate Inside(step: Step) {
    !step.Start? && !step.Accept? && !step.CloseAll? && !step.Stop?
  }

  /** Such a step, which does not count on `accept` to fail before the listener is closed. */
  predicate Helps(s: State, step: Step) {
    Enabled(s, step) && Inside(step) && (step.AcceptFails? ==> !s.running)
  }

  // ---------------------------------------------------------------------
  // Some thread can act
  // ---------------------------------------------------------------------

  /** A thread that has not ended can take its next step, unless the callback holds the mutex. */
  lemma WorkerActs(s: State, c: nat) returns (step: Step)
    requires LockFree(s) && c < |s.conns| && ThreadOf(s.conns[c].stage).Live?
    ensures Helps(s, step)
  {
    match s.conns[c].stage
    case Started => step := Register(c);
    case Registered => step := Unregister(c);
    case Unregistered => step := Epilogue(c);
    case Closed => step := Flag(c);
  }

  /** The accept thread goes on reaping, and then starts the worker. */
  lemma ReaperActs(s: State) returns (step: Step)
    requires Inv(s) && s.accept.Reaping?
    ensures Helps(s, step)
  {
    hide Tracks, AllClosedOnce, CallerRight;
    step := if s.accept.at < |s.workers| then Reap else Spawn;
  }

  lemma DrainActs(s: State) returns (step: Step)
    requires Inv(s) && s.caller.Draining?
    ensures Helps(s, step)
  {
    hide Tracks, AllClosedOnce, CallerRight, JoinsRight;
    if s.active == map[] {
      step := Drained;
    } else {
      SomeElement(s.active.Keys);
      var fd :| fd in s.active;
      TrackedIsOpen(s, fd);
      var c := s.active[fd];
      if s.conns[c].stage.Admitted? {
        step := ReaperActs(s);
      } else {
        step := WorkerActs(s, c);
      }
    }
  }

  lemma StopActs(s: State) returns (step: Step)
    requires Inv(s) && s.caller.AwaitAccept?
    ensures Helps(s, step)
  {
    hide Tracks, AllClosedOnce, JoinsRight;
    match s.accept
    case Top => step := LoopTop;
    case InAccept => step := AcceptFails;
    case Holding(_) => step := Admit;
    case Reaping(_, _) => step := ReaperActs(s);
    case Exited => step := AcceptJoined;
  }

  lemma JoinActs(s: State) returns (step: Step)
    requires Inv(s) && s.caller.Joining?
    ensures Helps(s, step)
  {
    hide Tracks, AllClosedOnce, AcceptRight;
    if s.caller.index >= |s.workers| {
      step := StopEnds;
    } else {
      var c := s.workers[s.caller.index];
      assert Listed(s.conns[c], false);
      if s.conns[c].stage.Flagged? {
        step := JoinWorker;
      } else {
        step := WorkerActs(s, c);
      }
    }
  }

  /** Main result on waiting: in every state a run reaches, a caller that has not returned is not stuck. */
  lemma NeverStuck(steps: seq<Step>, s: State) returns (step: Step)
    requires Runs(INITIAL, steps, s) && !s.caller.Idle?
    ensures Helps(s, step)
  {
    hide Inv;
    InitialHolds();
    RunsKeep(INITIAL, steps, s);
    match s.caller
    case Draining(_) => step := DrainActs(s);
    case Callback(_) => step := EndCallback;
    case AwaitAccept => step := StopActs(s);
    case Joining(_) => step := JoinActs(s);
  }

  // ---------------------------------------------------------------------
  // The threads come to rest
  // ---------------------------------------------------------------------

  /** How many steps a connection has still before it. */
  function StepsLeft(stage: Stage): nat {
    match stage
    case Held => 6
    case Admitted => 5
    case Started => 4
    case Registered => 3
    case Unregistered => 2
    case Closed => 1
    case _ => 0
  }

  function ConnWork(conns: seq<Conn>): nat {
    if conns == [] then 0 else ConnWork(conns[..|conns| - 1]) + StepsLeft(conns[|conns| - 1].stage)
  }

  function AcceptWork(s: State): nat {
    match s.accept
    case Exited => 0
    case InAccept => 1
    case Top => 2
    case Holding(_) => 3
    case Reaping(_, at) => if at < |s.workers| then 3 + (|s.workers| - at) else 3
  }

  function CallerWork(s: State): nat {
    match s.caller
    case Idle => 0
    case Joining(i) => 1 + if i < |s.workers| then |s.workers| - i else 0
    case Callback(stopping) => if stopping then 2 + |s.workers| else 1
    case Draining(stopping) => if stopping then 3 + |s.workers| else 2
    case AwaitAccept => 4 + |s.workers|
  }

  /** Fewer steps left for the connections, else for the accept thread, else for the caller. */
  predicate LessWork(t: State, s: State) {
    || ConnWork(t.conns) < ConnWork(s.conns)
    || (ConnWork(t.conns) == ConnWork(s.conns) &&
        (AcceptWork(t) < AcceptWork(s) || (AcceptWork(t) == AcceptWork(s) && CallerWork(t) < CallerWork(s))))
  }

  lemma {:induction false} ConnWorkUpdate(conns: seq<Conn>, c: nat, x: Conn)
    requires c < |conns|
    ensures ConnWork(conns[c := x]) == ConnWork(conns) - StepsLeft(conns[c].stage) + StepsLeft(x.stage)
  {
    var n := |conns| - 1;
    if c < n {
      assert conns[c := x][..n] == conns[..n][c := x];
      ConnWorkUpdate(conns[..n], c, x);
    } else {
      assert conns[c := x][..n] == conns[..n];
    }
  }

  lemma {:induction false} ConnWorkSame(conns: seq<Conn>, conns': seq<Conn>)
    requires |conns'| == |conns| && forall c :: 0 <= c < |conns| ==> conns'[c].stage == conns[c].stage
    ensures ConnWork(conns') == ConnWork(conns)
  {
    if conns != [] {
      ConnWorkSame(conns[..|conns| - 1], conns'[..|conns| - 1]);
    }
  }

  /** What a step that touches one connection leaves of the work. */
  lemma TouchWork(s: State, step: Step)
    requires Inv(s) && Enabled(s, step) && IsTouch(step)
    ensures ConnWork(Apply(s, step).conns) <= ConnWork(s.conns)
    ensures !step.Reap? && !step.JoinWorker? ==> ConnWork(Apply(s, step).conns) < ConnWork(s.conns)
    ensures step.Reap? || step.JoinWorker? ==> ConnWork(Apply(s, step).conns) == ConnWork(s.conns)
  {
    hide Inv, Apply, Enabled, ConnWork;
    var c := OneTouched(s, step);
    ConnWorkUpdate(s.conns, c, Apply(s, step).conns[c]);
  }

  lemma ControlWork(s: State, step: Step)
    requires Inv(s) && Enabled(s, step) && Inside(step) && IsControl(step)
    ensures LessWork(Apply(s, step), s)
  {
    hide Tracks, AllClosedOnce, AcceptRight, JoinsRight, ConnWork;
    ControlSame(s, step);
  }

  lemma ReapWork(s: State)
    requires Enabled(s, Reap)
    ensures AcceptWork(Apply(s, Reap)) < AcceptWork(s)
  {}

  lemma JoinWork(s: State)
    requires Enabled(s, JoinWorker)
    ensures AcceptWork(Apply(s, JoinWorker)) == AcceptWork(s) && CallerWork(Apply(s, JoinWorker)) < CallerWork(s)
  {}

  lemma AcceptJoinedWork(s: State)
    requires Enabled(s, AcceptJoined)
    ensures LessWork(Apply(s, AcceptJoined), s)
  {
    hide ConnWork;
    ConnWorkSame(s.conns, Apply(s, AcceptJoined).conns);
  }

  /** Every step of a thread of the server leaves less work. */
  lemma InsideStepsWork(s: State, step: Step)
    requires Inv(s) && Enabled(s, step) && Inside(step)
    ensures LessWork(Apply(s, step), s)
  {
    hide Inv, Apply, Enabled, ConnWork, AcceptWork, CallerWork;
    if IsControl(step) {
      ControlWork(s, step);
    } else if step.AcceptJoined? {
      AcceptJoinedWork(s);
    } else {
      TouchWork(s, step);
      if step.Reap? {
        ReapWork(s);
      } else if step.JoinWorker? {
        JoinWork(s);
      }
    }
  }

  /** An endless run, in any interleaving. */
  ghost predicate Endless(states: nat -> State, steps: nat -> Step) {
    forall i: nat :: Enabled(states(i), steps(i)) && states(i + 1) == Apply(states(i), steps(i))
  }

  lemma {:induction false} EndlessKeeps(states: nat -> State, steps: nat -> Step, k: nat)
    requires Endless(states, steps) && states(0) == INITIAL
    ensures Inv(states(k))
  {
    hide Inv, Apply, Enabled;
    if k == 0 {
      InitialHolds();
    } else {
      EndlessKeeps(states, steps, k - 1);
      assert Enabled(states(k - 1), steps(k - 1)) && states(k) == Apply(states(k - 1), steps(k - 1));
      StepKeeps(states(k - 1), steps(k - 1));
    }
  }

  /**
    Main result on coming to rest: every endless run has, after any point, another new call or
    another new connection. Left to themselves the threads stop, and then, by `NeverStuck`, no
    call of `close_all_clients` or `stop` is still waiting.
   */
  lemma ThreadsComeToRest(states: nat -> State, steps: nat -> Step, k: nat) returns (j: nat)
    requires Endless(states, steps) && states(0) == INITIAL
    ensures k <= j && !Inside(steps(j))
    decreases ConnWork(states(k).conns), AcceptWork(states(k)), CallerWork(states(k))
  {
    hide Inv, Apply, Enabled, ConnWork, AcceptWork, CallerWork, Inside;
    if Inside(steps(k)) {
      EndlessKeeps(states, steps, k);
      assert Enabled(states(k), steps(k)) && states(k + 1) == Apply(states(k), steps(k));
      InsideStepsWork(states(k), steps(k));
      j := ThreadsComeToRest(states, steps, k + 1);
    } else {
      j := k;
    }
  }
}
