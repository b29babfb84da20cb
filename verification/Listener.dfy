/** The listener's `run_servers` task (crates/listener/src/server.rs): an accept loop, a drain
    loop and a final shutdown, driven by two cancellation tokens. Sockets go from the accept
    stream through a handshake task to a serving task.

    It is modelled as a machine whose steps are the single polls that make up a biased
    `select!`, so that cancellations and task completions may fall between any two of them. */
module Listener {
  import opened Text

  /** Accepted sockets are numbered in the order in which the stream yields them. */
  type Socket = nat

  // ---------------------------------------------------------------- AbortableConnection

  datatype Call = GracefulShutdown | InnerPoll

  datatype Ending = Closed | ServingPanicked

  /** A served connection: its child token, the wrapper's flag, and the calls that reached the
      wrapped HTTP connection so far. */
  datatype Connection = Connection(token: bool, didStartShutdown: bool, calls: seq<Call>, ended: Option<Ending>)

  function Polled(c: Connection, ended: Option<Ending>): Connection {
    if c.token && !c.didStartShutdown
    then c.(didStartShutdown := true, calls := c.calls + [GracefulShutdown, InnerPoll], ended := ended)
    else c.(calls := c.calls + [InnerPoll], ended := ended)
  }

  class AbortableConnection {
    var didStartShutdown: bool
    var calls: seq<Call>

    constructor ()
      ensures !didStartShutdown && calls == []
    {
      didStartShutdown, calls := false, [];
    }

    /** `poll`: the graceful shutdown is requested before the inner poll, and only once. */
    method Poll(cancelled: bool)
      modifies this
      ensures forall ended :: Connection(cancelled, didStartShutdown, calls, ended)
                           == Polled(Connection(cancelled, old(didStartShutdown), old(calls), None), ended)
    {
      if cancelled && !didStartShutdown {
        didStartShutdown := true;
        calls := calls + [GracefulShutdown];
      }
      calls := calls + [InnerPoll];
    }
  }

  // ---------------------------------------------------------------- the machine

  datatype Handshake = Ongoing | Connected | Rejected | HandshakePanicked

  /** Where the listener stands: which branch of which `select!` it polls next. */
  datatype Pc =
    | PollSoft | PollHandshakes | PollConnections | PollStream
    | DrainTop | DrainHandshakes | DrainConnections | DrainHard
    | ToStopHandshakes | ToStopConnections | Returned

  datatype State = State(
    pc: Pc,
    hard: bool,
    soft: bool,
    taken: nat,
    handshaking: map<Socket, Handshake>,
    serving: set<Socket>,
    connections: map<Socket, Connection>,
    finished: set<Socket>,
    failed: set<Socket>,
    aborted: set<Socket>)

  datatype Step =
    // The rest of the program
    | CancelSoft
    | CancelHard
    | EndHandshake(socket: Socket, outcome: Handshake)
    | PollConnection(socket: Socket, ended: Option<Ending>)
    // The listener itself
    | SeeSoft
    | PassSoft
    | JoinHandshake(socket: Socket)
    | PassHandshakes
    | JoinConnection(socket: Socket)
    | PassConnections
    | Accept
    | PassStream
    | CheckDrain
    | SeeHard
    | PassHard
    | StopHandshakes
    | StopConnections

  function Init(): State {
    State(PollSoft, false, false, 0, map[], {}, map[], {}, {}, {})
  }

  predicate Accepting(pc: Pc) {
    pc == PollSoft || pc == PollHandshakes || pc == PollConnections || pc == PollStream
  }

  predicate Draining(pc: Pc) {
    pc == DrainTop || pc == DrainHandshakes || pc == DrainConnections || pc == DrainHard
  }

  predicate AtHandshakes(pc: Pc) { pc == PollHandshakes || pc == DrainHandshakes }

  predicate AtConnections(pc: Pc) { pc == PollConnections || pc == DrainConnections }

  /** Some handshake task has ended and waits to be joined. */
  predicate HandshakeReady(s: State) {
    exists c :: c in s.handshaking && s.handshaking[c] != Ongoing
  }

  predicate ConnectionReady(s: State) {
    exists c :: c in s.serving && c in s.connections && s.connections[c].ended.Some?
  }

  predicate Enabled(s: State, step: Step) {
    match step
    case CancelSoft => true
    case CancelHard => true
    case EndHandshake(c, outcome) => c in s.handshaking && s.handshaking[c] == Ongoing && outcome != Ongoing
    case PollConnection(c, _) => c in s.serving && c in s.connections && s.connections[c].ended.None?
    case SeeSoft => s.pc == PollSoft && s.soft
    case PassSoft => s.pc == PollSoft && !s.soft
    case JoinHandshake(c) => AtHandshakes(s.pc) && c in s.handshaking && s.handshaking[c] != Ongoing
    case PassHandshakes => AtHandshakes(s.pc) && !HandshakeReady(s)
    case JoinConnection(c) =>
      AtConnections(s.pc) && c in s.serving && c in s.connections && s.connections[c].ended.Some?
    case PassConnections => AtConnections(s.pc) && !ConnectionReady(s)
    case Accept => s.pc == PollStream
    case PassStream => s.pc == PollStream
    case CheckDrain => s.pc == DrainTop
    case SeeHard => s.pc == DrainHard && s.hard
    case PassHard => s.pc == DrainHard && !s.hard
    case StopHandshakes => s.pc == ToStopHandshakes
    case StopConnections => s.pc == ToStopConnections
  }

  /** Cancelling the soft token cancels its children, the tokens of all connections. */
  function SoftCancelled(s: State): State {
    s.(soft := true, connections := map c | c in s.connections :: s.connections[c].(token := true))
  }

  function Apply(s: State, step: Step): State
    requires Enabled(s, step)
  {
    match step
    case CancelSoft => SoftCancelled(s)
    case CancelHard => SoftCancelled(s).(hard := true)
    case EndHandshake(c, outcome) => s.(handshaking := s.handshaking[c := outcome])
    case PollConnection(c, ended) => s.(connections := s.connections[c := Polled(s.connections[c], ended)])
    case SeeSoft => s.(pc := DrainTop)
    case PassSoft => s.(pc := PollHandshakes)
    case JoinHandshake(c) =>
      var joined := s.(pc := if s.pc == PollHandshakes then PollSoft else DrainTop, handshaking := s.handshaking - {c});
      if s.handshaking[c] == Connected
      then joined.(serving := s.serving + {c},
                   connections := s.connections[c := Connection(s.soft, false, [], None)])
      else joined.(failed := s.failed + {c})
    case PassHandshakes => s.(pc := if s.pc == PollHandshakes then PollConnections else DrainConnections)
    case JoinConnection(c) =>
      var joined := s.(pc := if s.pc == PollConnections then PollSoft else DrainTop, serving := s.serving - {c});
      if s.connections[c].ended.value == Closed
      then joined.(finished := s.finished + {c})
      else joined.(failed := s.failed + {c})
    case PassConnections => s.(pc := if s.pc == PollConnections then PollStream else DrainHard)
    case Accept => s.(pc := PollSoft, taken := s.taken + 1, handshaking := s.handshaking[s.taken := Ongoing])
    case PassStream => s.(pc := PollSoft)
    case CheckDrain =>
      s.(pc := if s.handshaking != map[] || s.serving != {} then DrainHandshakes else ToStopHandshakes)
    case SeeHard => s.(pc := ToStopHandshakes)
    case PassHard => s.(pc := DrainTop)
    case StopHandshakes =>
      var dropped := set c | c in s.handshaking && s.handshaking[c] in {Ongoing, Connected};
      s.(pc := ToStopConnections, handshaking := map[],
         aborted := s.aborted + dropped, failed := s.failed + (s.handshaking.Keys - dropped))
    case StopConnections =>
      var closed := set c | c in s.serving && c in s.connections && s.connections[c].ended == Some(Closed);
      var panicked := set c | c in s.serving && c in s.connections && s.connections[c].ended == Some(ServingPanicked);
      SoftCancelled(s).(pc := Returned, serving := {}, finished := s.finished + closed,
         failed := s.failed + panicked, aborted := s.aborted + (s.serving - closed - panicked))
  }

  /** The state after a sequence of steps from the start, if each of them was possible. */
  function Exec(steps: seq<Step>): Option<State> {
    if steps == [] then Some(Init())
    else
      match Exec(steps[..|steps| - 1])
      case None => None
      case Some(s) =>
        var step := steps[|steps| - 1];
        if Enabled(s, step) then Some(Apply(s, step)) else None
  }

  predicate IsRun(steps: seq<Step>) { Exec(steps).Some? }

  lemma ExecStep(steps: seq<Step>, step: Step)
    ensures Exec(steps + [step])
         == if IsRun(steps) && Enabled(Exec(steps).value, step) then Some(Apply(Exec(steps).value, step)) else None
  {
    assert (steps + [step])[..|steps|] == steps;
  }

  // ---------------------------------------------------------------- whole-run safety

  /** The sockets taken so far. */
  function Numbers(n: nat): (r: set<Socket>)
    ensures forall c: Socket :: c in r <==> c < n
  {
    if n == 0 then {} else Numbers(n - 1) + {n - 1}
  }

  /** Every socket taken from the stream is in exactly one of the five places. */
  ghost predicate Accounted(s: State) {
    && s.handshaking.Keys + s.serving + s.finished + s.failed + s.aborted == Numbers(s.taken)
    && s.handshaking.Keys !! s.serving !! s.finished !! s.failed !! s.aborted
    && s.serving <= s.connections.Keys
  }

  /** Connections are spawned once per socket, for sockets whose handshake is over. */
  ghost predicate SpawnedOnce(s: State) {
    s.connections.Keys <= Numbers(s.taken) && s.connections.Keys !! s.handshaking.Keys
  }

  /** The token tree: hard, below it soft, below it one token per connection. */
  ghost predicate TokensNested(s: State) {
    && (s.hard ==> s.soft)
    && forall c :: c in s.connections ==> s.connections[c].token == s.soft
  }

  ghost predicate Controlled(s: State) {
    && (!Accepting(s.pc) ==> s.soft)
    && (s.pc == ToStopHandshakes ==> s.hard || (s.handshaking == map[] && s.serving == {}))
    && (s.pc == ToStopConnections ==> s.handshaking == map[] && (s.hard || s.serving == {}))
    && (s.pc == Returned ==> s.handshaking == map[] && s.serving == {})
    && (s.aborted != {} ==> s.hard)
  }

  lemma AccountedStep(s: State, step: Step)
    requires Accounted(s) && Enabled(s, step)
    ensures Accounted(Apply(s, step))
  {
    var t := Apply(s, step);
    match step
    case StopHandshakes => AccountedStop(s, step);
    case StopConnections => AccountedStop(s, step);
    case JoinHandshake(_) => AccountedJoin(s, step);
    case JoinConnection(_) => AccountedJoin(s, step);
    case Accept => assert Numbers(t.taken) == Numbers(s.taken) + {s.taken};
    case EndHandshake(c, _) => assert t.handshaking.Keys == s.handshaking.Keys;
    case _ =>
  }

  lemma AccountedStop(s: State, step: Step)
    requires Accounted(s) && Enabled(s, step)
    requires step == StopHandshakes || step == StopConnections
    ensures Accounted(Apply(s, step))
  {
    hide Accounted, Apply, Enabled;
    if step == StopHandshakes {
      AccountedStopHandshakes(s);
    } else {
      AccountedStopConnections(s);
    }
  }

  lemma AccountedStopHandshakes(s: State)
    requires Accounted(s) && Enabled(s, StopHandshakes)
    ensures Accounted(Apply(s, StopHandshakes))
  {
    hide Numbers;
  }

  lemma AccountedStopConnections(s: State)
    requires Accounted(s) && Enabled(s, StopConnections)
    ensures Accounted(Apply(s, StopConnections))
  {
    hide Numbers;
    assert SoftCancelled(s).connections.Keys == s.connections.Keys;
  }

  lemma AccountedJoin(s: State, step: Step)
    requires Accounted(s) && Enabled(s, step) && IsJoin(step)
    ensures Accounted(Apply(s, step))
  {
    hide Accounted, Enabled, Apply;
    if step.JoinHandshake? {
      AccountedHandshake(s, step.socket);
    } else {
      AccountedConnection(s, step.socket);
    }
  }

  lemma AccountedHandshake(s: State, c: Socket)
    requires Accounted(s) && Enabled(s, JoinHandshake(c))
    ensures Accounted(Apply(s, JoinHandshake(c)))
  {
    hide Numbers;
    var t := Apply(s, JoinHandshake(c));
    assert c in s.handshaking.Keys;
    assert t.handshaking.Keys == s.handshaking.Keys - {c};
  }

  lemma AccountedConnection(s: State, c: Socket)
    requires Accounted(s) && Enabled(s, JoinConnection(c))
    ensures Accounted(Apply(s, JoinConnection(c)))
  {
    hide Numbers;
  }

  lemma SpawnedOnceStep(s: State, step: Step)
    requires Accounted(s) && SpawnedOnce(s) && Enabled(s, step)
    ensures SpawnedOnce(Apply(s, step))
  {
    match step
    case Accept => assert s.taken !in s.connections;
    case JoinHandshake(c) => assert c in s.handshaking.Keys;
    case _ =>
  }

  lemma OneWayStep(s: State, step: Step)
    requires Enabled(s, step)
    ensures s.soft ==> Apply(s, step).soft
    ensures !Accepting(s.pc) ==> !Accepting(Apply(s, step).pc)
  {
  }

  lemma TokensStep(s: State, step: Step)
    requires TokensNested(s) && Enabled(s, step)
    ensures TokensNested(Apply(s, step))
  {
  }

  lemma ControlledStep(s: State, step: Step)
    requires Controlled(s) && Enabled(s, step)
    ensures Controlled(Apply(s, step))
  {
  }

  /** Safety over every run: conservation of sockets, the token hierarchy, no abort without a
      hard shutdown, and nothing left behind on return. */
  lemma {:induction false} RunIsSafe(steps: seq<Step>)
    requires IsRun(steps)
    ensures var s := Exec(steps).value;
      && Accounted(s) && SpawnedOnce(s) && TokensNested(s) && Controlled(s)
      && (s.pc == Returned ==> s.finished + s.failed + s.aborted == Numbers(s.taken))
  {
    if steps != [] {
      var front := steps[..|steps| - 1];
      RunIsSafe(front);
      AccountedStep(Exec(front).value, steps[|steps| - 1]);
      SpawnedOnceStep(Exec(front).value, steps[|steps| - 1]);
      TokensStep(Exec(front).value, steps[|steps| - 1]);
      ControlledStep(Exec(front).value, steps[|steps| - 1]);
    }
  }

  lemma HardStep(s: State, step: Step)
    requires Enabled(s, step)
    ensures Apply(s, step).hard <==> s.hard || step == CancelHard
  {
  }

  lemma {:induction false} HardNeedsCancel(steps: seq<Step>)
    requires IsRun(steps)
    ensures Exec(steps).value.hard <==> CancelHard in steps
  {
    if steps != [] {
      hide Apply, Enabled;
      var front, last := steps[..|steps| - 1], steps[|steps| - 1];
      HardNeedsCancel(front);
      HardStep(Exec(front).value, last);
      assert steps == front + [last];
    }
  }

  /** As long as nobody cancels the hard token, no handshake and no connection is ever aborted. */
  lemma GracefulRunsAbortNothing(steps: seq<Step>)
    requires IsRun(steps) && CancelHard !in steps
    ensures Exec(steps).value.aborted == {}
  {
    RunIsSafe(steps);
    HardNeedsCancel(steps);
  }

  // ---------------------------------------------------------------- accepting after the soft token

  /** How many sockets a run took from the stream after the soft token was cancelled. */
  function LateAccepts(steps: seq<Step>): nat
    requires IsRun(steps)
  {
    if steps == [] then 0
    else
      var front := steps[..|steps| - 1];
      LateAccepts(front) + if steps[|steps| - 1] == Accept && Exec(front).value.soft then 1 else 0
  }

  /** A cancellation that falls between the poll of the token and the poll of the stream lets one
      more socket in, and never more than one; once the loop saw the token, none is taken. */
  lemma {:induction false} AtMostOneLateAccept(steps: seq<Step>)
    requires IsRun(steps)
    ensures LateAccepts(steps) <= 1
    ensures var s := Exec(steps).value;
      (Accepting(s.pc) && s.pc != PollSoft) || !s.soft ==> LateAccepts(steps) == 0
    ensures SeeSoft in steps ==> !Accepting(Exec(steps).value.pc)
  {
    if steps != [] {
      hide Apply, Enabled;
      var front, last := steps[..|steps| - 1], steps[|steps| - 1];
      AtMostOneLateAccept(front);
      OneWayStep(Exec(front).value, last);
      LateStep(Exec(front).value, last);
      assert steps == front + [last];
    }
  }

  lemma LateStep(s: State, step: Step)
    requires Enabled(s, step)
    ensures step == Accept ==> s.pc == PollStream && Apply(s, step).pc == PollSoft
    ensures var t := Apply(s, step);
      Accepting(t.pc) && t.pc != PollSoft ==> (Accepting(s.pc) && s.pc != PollSoft) || !s.soft
    ensures step == SeeSoft ==> !Accepting(Apply(s, step).pc)
    ensures step == Accept ==> Apply(s, step).soft == s.soft
  {
  }

  /** The round under way is past its look at the soft token and nothing it polls before the
      stream is ready. */
  predicate CanStillAccept(s: State) {
    match s.pc
    case PollHandshakes => !HandshakeReady(s) && !ConnectionReady(s)
    case PollConnections => !ConnectionReady(s)
    case PollStream => true
    case _ => false
  }

  lemma NoLateAcceptStep(s: State, step: Step)
    requires s.soft && !CanStillAccept(s) && Enabled(s, step)
    ensures step != Accept && Apply(s, step).soft && !CanStillAccept(Apply(s, step))
  {
    var t := Apply(s, step);
    match step
    case EndHandshake(c, outcome) =>
      assert c in t.handshaking && t.handshaking[c] != Ongoing;
      StillReady(s, t);
    case PollConnection(c, ended) => StillReady(s, t);
    case CancelSoft => StillReady(s, t);
    case CancelHard => StillReady(s, t);
    case _ =>
  }

  lemma StillReady(s: State, t: State)
    requires forall c :: c in s.handshaking && s.handshaking[c] != Ongoing ==>
               c in t.handshaking && t.handshaking[c] == s.handshaking[c]
    requires forall c :: c in s.serving && c in s.connections && s.connections[c].ended.Some? ==>
               c in t.serving && c in t.connections && t.connections[c].ended.Some?
    ensures HandshakeReady(s) ==> HandshakeReady(t)
    ensures ConnectionReady(s) ==> ConnectionReady(t)
  {
    if HandshakeReady(s) {
      var c :| c in s.handshaking && s.handshaking[c] != Ongoing;
      assert c in t.handshaking && t.handshaking[c] != Ongoing;
    }
    if ConnectionReady(s) {
      var c :| c in s.serving && c in s.connections && s.connections[c].ended.Some?;
      assert c in t.serving && c in t.connections && t.connections[c].ended.Some?;
    }
  }

  lemma {:induction false} NoLateAcceptRun(before: seq<Step>, after: seq<Step>)
    requires IsRun(before) && IsRun(before + after)
    requires Exec(before).value.soft && !CanStillAccept(Exec(before).value)
    ensures Accept !in after
    ensures Exec(before + after).value.soft && !CanStillAccept(Exec(before + after).value)
  {
    if after == [] {
      assert before + after == before;
    } else {
      var front := after[..|after| - 1];
      var last := after[|after| - 1];
      assert before + after == before + front + [last];
      ExecStep(before + front, last);
      NoLateAcceptRun(before, front);
      NoLateAcceptStep(Exec(before + front).value, last);
      assert after == front + [last];
    }
  }

  /** The polls that separate the round from the stream. */
  function PollsUpToAccept(pc: Pc): seq<Step> {
    match pc
    case PollHandshakes => [PassHandshakes, PassConnections, Accept]
    case PollConnections => [PassConnections, Accept]
    case _ => [Accept]
  }

  lemma PollsUpToAcceptRun(before: seq<Step>)
    requires IsRun(before) && CanStillAccept(Exec(before).value)
    ensures IsRun(before + PollsUpToAccept(Exec(before).value.pc))
  {
    hide Exec, Enabled, Apply;
    match Exec(before).value.pc
    case PollHandshakes =>
      PassThenAccept(before, PassHandshakes, [PassConnections, Accept]);
      assert [PassHandshakes] + [PassConnections, Accept] == [PassHandshakes, PassConnections, Accept];
    case PollConnections =>
      PassThenAccept(before, PassConnections, [Accept]);
      assert [PassConnections] + [Accept] == [PassConnections, Accept];
    case PollStream => AcceptNext(before);
    case _ =>
  }

  lemma AcceptNext(before: seq<Step>)
    requires IsRun(before) && Exec(before).value.pc == PollStream
    ensures IsRun(before + [Accept])
  {
    hide Exec;
    ExecStep(before, Accept);
  }

  lemma PassThenAccept(before: seq<Step>, step: Step, rest: seq<Step>)
    requires IsRun(before) && CanStillAccept(Exec(before).value)
    requires (step == PassHandshakes && Exec(before).value.pc == PollHandshakes && rest == [PassConnections, Accept])
          || (step == PassConnections && Exec(before).value.pc == PollConnections && rest == [Accept])
    ensures IsRun(before + ([step] + rest))
    decreases |rest|
  {
    hide Exec;
    ExecStep(before, step);
    assert before + ([step] + rest) == (before + [step]) + rest;
    if step == PassHandshakes {
      PassThenAccept(before + [step], PassConnections, [Accept]);
      assert [PassConnections] + [Accept] == rest;
    } else {
      AcceptNext(before + [step]);
    }
  }

  /** Exactly when a socket can still be taken after the soft token is cancelled: some continuation
      takes one if and only if the cancellation caught the round past every earlier branch. */
  lemma LateAcceptPossibleIff(before: seq<Step>)
    requires IsRun(before) && Exec(before).value.soft
    ensures CanStillAccept(Exec(before).value)
       <==> exists after :: IsRun(before + after) && Accept in after
  {
    if CanStillAccept(Exec(before).value) {
      PollsUpToAcceptRun(before);
    } else {
      forall after | IsRun(before + after) ensures Accept !in after {
        NoLateAcceptRun(before, after);
      }
    }
  }

  /** Such a run: the token is cancelled right after it was polled, and a socket is still taken. */
  lemma LateAcceptExample()
    ensures var steps := [PassSoft, CancelSoft, PassHandshakes, PassConnections, Accept];
      IsRun(steps) && LateAccepts(steps) == 1
  {
    var before, passes := [PassSoft, CancelSoft], [PassHandshakes, PassConnections];
    CancelledBetweenPolls();
    hide Exec, Enabled, Apply;
    PollsUpToAcceptRun(before);
    var steps := before + PollsUpToAccept(PollHandshakes);
    assert steps == [PassSoft, CancelSoft, PassHandshakes, PassConnections, Accept];
    assert steps[..|steps| - 1] == before + passes;
    assert steps == before + passes + [Accept];
    PrefixIsRun(before + passes, Accept);
    SoftStays(before, passes);
    AtMostOneLateAccept(steps);
  }

  lemma CancelledBetweenPolls()
    ensures var before := [PassSoft, CancelSoft];
      && IsRun(before) && Exec(before).value.soft
      && Exec(before).value.pc == PollHandshakes && CanStillAccept(Exec(before).value)
  {
    assert [PassSoft, CancelSoft][..1] == [PassSoft] && [PassSoft][..0] == [];
  }

  lemma PrefixIsRun(steps: seq<Step>, step: Step)
    requires IsRun(steps + [step])
    ensures IsRun(steps)
  {
    ExecStep(steps, step);
  }

  lemma {:induction false} SoftStays(before: seq<Step>, after: seq<Step>)
    requires IsRun(before) && IsRun(before + after) && Exec(before).value.soft
    ensures Exec(before + after).value.soft
  {
    hide Exec, Enabled, Apply;
    if after == [] {
      assert before + after == before;
    } else {
      var front, last := after[..|after| - 1], after[|after| - 1];
      assert before + after == before + front + [last];
      ExecStep(before + front, last);
      SoftStays(before, front);
      OneWayStep(Exec(before + front).value, last);
    }
  }

  // ---------------------------------------------------------------- graceful shutdown of connections

  function Repeat(call: Call, n: nat): (r: seq<Call>)
    ensures |r| == n
  {
    if n == 0 then [] else Repeat(call, n - 1) + [call]
  }

  /** How often connection `c` was polled with its token in the given state. */
  function Polls(steps: seq<Step>, c: Socket, cancelled: bool): nat
    requires IsRun(steps)
  {
    if steps == [] then 0
    else
      var front := steps[..|steps| - 1];
      var last := steps[|steps| - 1];
      Polls(front, c, cancelled)
      + if last.PollConnection? && last.socket == c && Exec(front).value.connections[c].token == cancelled then 1 else 0
  }

  /** What a connection sees over any run: plain polls while its token is live, then one graceful
      shutdown request right before the first poll after the cancellation, then plain polls. */
  function ExpectedCalls(live: nat, cancelled: nat): seq<Call> {
    Repeat(InnerPoll, live) + if cancelled == 0 then [] else [GracefulShutdown] + Repeat(InnerPoll, cancelled)
  }

  ghost predicate CallsAre(s: State, c: Socket, live: nat, cancelled: nat) {
    if c in s.connections then
      && s.connections[c].calls == ExpectedCalls(live, cancelled)
      && s.connections[c].didStartShutdown == (cancelled > 0)
      && (!s.soft ==> cancelled == 0)
    else
      live == cancelled == 0
  }

  lemma CallsStep(s: State, step: Step, c: Socket, live: nat, cancelled: nat)
    requires Enabled(s, step) && TokensNested(s) && SpawnedOnce(s) && CallsAre(s, c, live, cancelled)
    ensures var polled := step.PollConnection? && step.socket == c;
      CallsAre(Apply(s, step), c,
               live + (if polled && !s.connections[c].token then 1 else 0),
               cancelled + (if polled && s.connections[c].token then 1 else 0))
  {
    match step
    case PollConnection(d, ended) =>
      if d == c {
        ExpectedCallsGrow(live, cancelled);
      }
    case JoinHandshake(d) => assert d in s.handshaking.Keys;
    case _ =>
  }

  lemma ExpectedCallsGrow(live: nat, cancelled: nat)
    ensures ExpectedCalls(live, cancelled + 1)
         == ExpectedCalls(live, cancelled) + if cancelled == 0 then [GracefulShutdown, InnerPoll] else [InnerPoll]
    ensures ExpectedCalls(live + 1, 0) == ExpectedCalls(live, 0) + [InnerPoll]
  {
    assert Repeat(InnerPoll, 1) == [InnerPoll];
  }

  lemma {:induction false} ConnectionCalls(steps: seq<Step>, c: Socket)
    requires IsRun(steps)
    ensures CallsAre(Exec(steps).value, c, Polls(steps, c, false), Polls(steps, c, true))
  {
    if steps != [] {
      var front := steps[..|steps| - 1];
      ConnectionCalls(front, c);
      RunIsSafe(front);
      CallsStep(Exec(front).value, steps[|steps| - 1], c, Polls(front, c, false), Polls(front, c, true));
    }
  }

  /** A connection that is only spawned after the soft token was cancelled, in particular during
      the drain, is asked to shut down before its first poll. */
  lemma {:induction false} LateConnectionsShutDownFirst(before: seq<Step>, after: seq<Step>, c: Socket)
    requires IsRun(before) && IsRun(before + after)
    requires Exec(before).value.soft && c !in Exec(before).value.connections
    ensures Exec(before + after).value.soft && Polls(before + after, c, false) == 0
    ensures var s := Exec(before + after).value;
      c in s.connections && s.connections[c].calls != [] ==> s.connections[c].calls[0] == GracefulShutdown
  {
    ConnectionCalls(before + after, c);
    if after == [] {
      assert before + after == before;
      ConnectionCalls(before, c);
    } else {
      var front := after[..|after| - 1];
      assert before + after == before + front + [after[|after| - 1]];
      assert (before + after)[..|before + after| - 1] == before + front;
      LateConnectionsShutDownFirst(before, front, c);
      RunIsSafe(before + front);
      OneWayStep(Exec(before + front).value, after[|after| - 1]);
    }
  }

  // ---------------------------------------------------------------- the drain terminates

  ghost function DrainMeasure(s: State): nat {
    2 * |s.handshaking.Keys| + |s.serving|
  }

  predicate IsJoin(step: Step) { step.JoinHandshake? || step.JoinConnection? }

  function Joins(steps: seq<Step>): nat {
    if steps == [] then 0 else Joins(steps[..|steps| - 1]) + if IsJoin(steps[|steps| - 1]) then 1 else 0
  }

  lemma DrainStep(s: State, step: Step)
    requires Draining(s.pc) && Enabled(s, step)
    ensures DrainMeasure(Apply(s, step)) + (if IsJoin(step) then 1 else 0) <= DrainMeasure(s)
  {
    if IsJoin(step) {
      TasksJoined(s, step);
    } else {
      DrainOther(s, step);
    }
  }

  lemma DrainOther(s: State, step: Step)
    requires Draining(s.pc) && Enabled(s, step) && !IsJoin(step)
    ensures Apply(s, step).handshaking.Keys == s.handshaking.Keys
    ensures Apply(s, step).serving == s.serving
  {
  }

  lemma TasksJoined(s: State, step: Step)
    requires Enabled(s, step) && IsJoin(step)
    ensures DrainMeasure(Apply(s, step)) < DrainMeasure(s)
  {
    hide Apply, Enabled;
    if step.JoinHandshake? {
      HandshakeJoined(s, step.socket);
      OneLess(s.handshaking.Keys, step.socket);
      OneMore(Apply(s, step).serving, s.serving, step.socket);
    } else {
      ConnectionJoined(s, step.socket);
      OneLess(s.serving, step.socket);
    }
  }

  lemma HandshakeJoined(s: State, c: Socket)
    requires Enabled(s, JoinHandshake(c))
    ensures c in s.handshaking.Keys
    ensures var t := Apply(s, JoinHandshake(c));
      t.handshaking.Keys == s.handshaking.Keys - {c} && t.serving <= s.serving + {c}
  {
  }

  lemma ConnectionJoined(s: State, c: Socket)
    requires Enabled(s, JoinConnection(c))
    ensures c in s.serving
    ensures var t := Apply(s, JoinConnection(c)); t.serving == s.serving - {c} && t.handshaking == s.handshaking
  {
  }

  lemma OneLess(a: set<Socket>, c: Socket)
    requires c in a
    ensures |a - {c}| == |a| - 1
  {
  }

  lemma OneMore(a: set<Socket>, b: set<Socket>, c: Socket)
    requires a <= b + {c}
    ensures |a| <= |b| + 1
  {
    Smaller(a, b + {c});
    assert |b + {c}| <= |b| + 1;
  }

  lemma Smaller(a: set<Socket>, b: set<Socket>)
    requires a <= b
    ensures |a| <= |b|
  {
    assert b == a + (b - a);
  }

  /** Although a finished handshake spawns a connection, the joins of a drain are bounded by the
      tasks that were alive when it began: two per handshake, one per connection. */
  lemma {:induction false} DrainIsBounded(before: seq<Step>, after: seq<Step>)
    requires IsRun(before) && IsRun(before + after)
    requires Draining(Exec(before).value.pc) && Draining(Exec(before + after).value.pc)
    ensures DrainMeasure(Exec(before + after).value) + Joins(after) <= DrainMeasure(Exec(before).value)
  {
    if after == [] {
      assert before + after == before;
    } else {
      var front := after[..|after| - 1];
      var last := after[|after| - 1];
      assert before + after == before + front + [last];
      ExecStep(before + front, last);
      OnlyDrainBefore(before, front, last);
      DrainIsBounded(before, front);
      DrainStep(Exec(before + front).value, last);
    }
  }

  lemma {:induction false} OnlyDrainBefore(before: seq<Step>, front: seq<Step>, last: Step)
    requires IsRun(before) && IsRun(before + front) && IsRun(before + front + [last])
    requires Draining(Exec(before).value.pc) && Draining(Exec(before + front + [last]).value.pc)
    ensures Draining(Exec(before + front).value.pc)
  {
    ExecStep(before + front, last);
    NeverBackToAccepting(before, front);
  }

  lemma {:induction false} NeverBackToAccepting(before: seq<Step>, after: seq<Step>)
    requires IsRun(before) && IsRun(before + after)
    requires !Accepting(Exec(before).value.pc)
    ensures !Accepting(Exec(before + after).value.pc)
  {
    if after == [] {
      assert before + after == before;
    } else {
      var front := after[..|after| - 1];
      assert before + after == before + front + [after[|after| - 1]];
      ExecStep(before + front, after[|after| - 1]);
      NeverBackToAccepting(before, front);
      OneWayStep(Exec(before + front).value, after[|after| - 1]);
    }
  }

  // ---------------------------------------------------------------- what becomes of a socket

  /** What has happened to a socket so far agrees with where it is. */
  ghost predicate Fate(s: State, steps: seq<Step>, c: Socket) {
    && (c in s.handshaking && s.handshaking[c] != Ongoing ==> EndHandshake(c, s.handshaking[c]) in steps)
    && (forall o :: EndHandshake(c, o) in steps && (o == Rejected || o == HandshakePanicked) ==>
          c in s.failed || (c in s.handshaking && s.handshaking[c] == o))
    && (EndHandshake(c, Connected) in steps ==>
          c in s.connections || c in s.aborted || (c in s.handshaking && s.handshaking[c] == Connected))
    && (c in s.connections ==> EndHandshake(c, Connected) in steps)
    && (forall e :: PollConnection(c, Some(e)) in steps <==> c in s.connections && s.connections[c].ended == Some(e))
    && (c in s.serving ==> c in s.connections)
    && (c in s.finished ==> c in s.connections && s.connections[c].ended == Some(Closed))
    && (c in s.failed ==>
          if c in s.connections then s.connections[c].ended == Some(ServingPanicked)
          else EndHandshake(c, Rejected) in steps || EndHandshake(c, HandshakePanicked) in steps)
    && (c in s.connections && c !in s.serving ==>
          match s.connections[c].ended
          case None => c in s.aborted
          case Some(Closed) => c in s.finished
          case Some(ServingPanicked) => c in s.failed)
  }

  /** In every run: a socket is served only after its handshake connected it; once it is not served any
      more, it is finished if its connection was closed, failed if it panicked, and aborted if it had not
      ended; and a handshake that did not connect is either not joined yet or has failed. */
  lemma {:induction false} SocketFates(steps: seq<Step>, c: Socket)
    requires IsRun(steps)
    ensures Fate(Exec(steps).value, steps, c)
  {
    if steps != [] {
      var front, last := steps[..|steps| - 1], steps[|steps| - 1];
      SocketFates(front, c);
      RunIsSafe(front);
      assert steps == front + [last];
      hide Exec, Fate, Controlled, TokensNested, Accounted, SpawnedOnce, Apply, Enabled;
      FateStep(Exec(front).value, front, last, c);
    }
  }

  lemma FateStep(s: State, steps: seq<Step>, step: Step, c: Socket)
    requires Accounted(s) && SpawnedOnce(s) && Fate(s, steps, c) && Enabled(s, step)
    ensures Fate(Apply(s, step), steps + [step], c)
  {
    SocketPlaces(s, c);
    hide Accounted, SpawnedOnce;
    match step
    case EndHandshake(d, o) => FateOfHandshake(s, steps, d, o, c);
    case PollConnection(d, e) => FateOfPoll(s, steps, d, e, c);
    case JoinHandshake(d) => FateOfJoin(s, steps, d, c);
    case StopHandshakes => FateOfStop(s, steps, c);
    case StopConnections => FateOfStopConnections(s, steps, c);
    case Accept => FateOfAccept(s, steps, c);
    case JoinConnection(d) => FateOfJoinConnection(s, steps, d, c);
    case _ => FateElse(s, steps, step, c);
  }

  /** A socket is in one place, and not there yet if it has not been taken. */
  ghost predicate Placed(s: State, c: Socket) {
    && !(c in s.handshaking.Keys && (c in s.serving || c in s.finished || c in s.failed || c in s.aborted))
    && !(c in s.serving && (c in s.finished || c in s.failed || c in s.aborted))
    && !(c in s.finished && (c in s.failed || c in s.aborted)) && !(c in s.failed && c in s.aborted)
    && !(c in s.connections && c in s.handshaking.Keys)
    && (c == s.taken ==> c !in s.handshaking && c !in s.connections)
    && (c == s.taken ==> c !in s.serving && c !in s.finished && c !in s.failed && c !in s.aborted)
  }

  lemma SocketPlaces(s: State, c: Socket)
    requires Accounted(s) && SpawnedOnce(s)
    ensures Placed(s, c)
  {
  }

  lemma FateOfHandshake(s: State, steps: seq<Step>, d: Socket, o: Handshake, c: Socket)
    requires Placed(s, c) && Fate(s, steps, c) && Enabled(s, EndHandshake(d, o))
    ensures Fate(Apply(s, EndHandshake(d, o)), steps + [EndHandshake(d, o)], c)
  {
  }

  lemma FateOfPoll(s: State, steps: seq<Step>, d: Socket, e: Option<Ending>, c: Socket)
    requires Placed(s, c) && Fate(s, steps, c) && Enabled(s, PollConnection(d, e))
    ensures Fate(Apply(s, PollConnection(d, e)), steps + [PollConnection(d, e)], c)
  {
  }

  lemma FateOfJoin(s: State, steps: seq<Step>, d: Socket, c: Socket)
    requires Placed(s, c) && Fate(s, steps, c) && Enabled(s, JoinHandshake(d))
    ensures Fate(Apply(s, JoinHandshake(d)), steps + [JoinHandshake(d)], c)
  {
  }

  lemma FateOfStop(s: State, steps: seq<Step>, c: Socket)
    requires Placed(s, c) && Fate(s, steps, c) && Enabled(s, StopHandshakes)
    ensures Fate(Apply(s, StopHandshakes), steps + [StopHandshakes], c)
  {
  }

  lemma FateOfStopConnections(s: State, steps: seq<Step>, c: Socket)
    requires Placed(s, c) && Fate(s, steps, c) && Enabled(s, StopConnections)
    ensures Fate(Apply(s, StopConnections), steps + [StopConnections], c)
  {
  }

  lemma FateOfAccept(s: State, steps: seq<Step>, c: Socket)
    requires Placed(s, c) && Fate(s, steps, c) && Enabled(s, Accept)
    ensures Fate(Apply(s, Accept), steps + [Accept], c)
  {
  }

  lemma FateOfJoinConnection(s: State, steps: seq<Step>, d: Socket, c: Socket)
    requires Placed(s, c) && Fate(s, steps, c) && Enabled(s, JoinConnection(d))
    ensures Fate(Apply(s, JoinConnection(d)), steps + [JoinConnection(d)], c)
  {
  }

  lemma FateElse(s: State, steps: seq<Step>, step: Step, c: Socket)
    requires Placed(s, c) && Fate(s, steps, c) && Enabled(s, step)
    requires !step.EndHandshake? && !step.PollConnection? && !step.JoinHandshake? && !step.StopHandshakes?
    requires !step.StopConnections? && !step.Accept? && !step.JoinConnection?
    ensures Fate(Apply(s, step), steps + [step], c)
  {
  }

  // ---------------------------------------------------------------- progress

  /** The steps of the listener, as opposed to those of the rest of the program. */
  predicate IsOwn(step: Step) {
    !step.CancelSoft? && !step.CancelHard? && !step.EndHandshake? && !step.PollConnection?
  }

  function OwnSteps(steps: seq<Step>): nat {
    if steps == [] then 0 else OwnSteps(steps[..|steps| - 1]) + if IsOwn(steps[|steps| - 1]) then 1 else 0
  }

  /** In every state the listener can take a step of its own, unless it has returned; then it takes
      none any more. */
  lemma NeverStuckIff(s: State)
    ensures (exists step :: IsOwn(step) && Enabled(s, step)) <==> s.pc != Returned
  {
    match s.pc
    case PollSoft => assert Enabled(s, if s.soft then SeeSoft else PassSoft);
    case PollHandshakes => HandshakePollGoesOn(s);
    case DrainHandshakes => HandshakePollGoesOn(s);
    case PollConnections => ConnectionPollGoesOn(s);
    case DrainConnections => ConnectionPollGoesOn(s);
    case PollStream => assert Enabled(s, PassStream);
    case DrainTop => assert Enabled(s, CheckDrain);
    case DrainHard => assert Enabled(s, if s.hard then SeeHard else PassHard);
    case ToStopHandshakes => assert Enabled(s, StopHandshakes);
    case ToStopConnections => assert Enabled(s, StopConnections);
    case Returned =>
  }

  lemma HandshakePollGoesOn(s: State)
    requires AtHandshakes(s.pc)
    ensures exists step :: IsOwn(step) && Enabled(s, step)
  {
    if HandshakeReady(s) {
      var c :| c in s.handshaking && s.handshaking[c] != Ongoing;
      assert Enabled(s, JoinHandshake(c));
    } else {
      assert Enabled(s, PassHandshakes);
    }
  }

  lemma ConnectionPollGoesOn(s: State)
    requires AtConnections(s.pc)
    ensures exists step :: IsOwn(step) && Enabled(s, step)
  {
    if ConnectionReady(s) {
      var c :| c in s.serving && c in s.connections && s.connections[c].ended.Some?;
      assert Enabled(s, JoinConnection(c));
    } else {
      assert Enabled(s, PassConnections);
    }
  }

  /** How far the program counter is from the end when both tokens are cancelled; a socket can still be
      taken on the way from the stream to the token. */
  function Distance(pc: Pc): nat {
    match pc
    case Returned => 0
    case ToStopConnections => 1
    case ToStopHandshakes => 2
    case DrainHard => 3
    case DrainConnections => 4
    case DrainHandshakes => 5
    case DrainTop => 6
    case PollSoft => 7
    case PollStream => 14
    case PollConnections => 15
    case PollHandshakes => 16
  }

  /** The own steps left once the hard token is cancelled: three for each join still possible. */
  ghost function StepsLeft(s: State): nat { 3 * DrainMeasure(s) + Distance(s.pc) }

  lemma HardShutdownStep(s: State, step: Step)
    requires s.hard && s.soft && Enabled(s, step)
    ensures if IsOwn(step) then StepsLeft(Apply(s, step)) < StepsLeft(s) else StepsLeft(Apply(s, step)) == StepsLeft(s)
  {
    hide Enabled, Apply;
    if IsJoin(step) {
      JoinLowers(s, step);
    } else if step == StopHandshakes || step == StopConnections {
      StopLowers(s, step);
    } else if step == Accept {
      AcceptAdds(s);
      OneMore(Apply(s, step).handshaking.Keys, s.handshaking.Keys, s.taken);
    } else {
      PollLowers(s, step);
    }
  }

  lemma JoinLowers(s: State, step: Step)
    requires Enabled(s, step) && IsJoin(step)
    ensures DrainMeasure(Apply(s, step)) < DrainMeasure(s)
    ensures Distance(Apply(s, step).pc) <= Distance(s.pc) + 2
  {
    hide DrainMeasure, Apply;
    TasksJoined(s, step);
    BackToTop(s, step);
  }

  lemma BackToTop(s: State, step: Step)
    requires Enabled(s, step) && IsJoin(step)
    ensures Apply(s, step).pc == if Accepting(s.pc) then PollSoft else DrainTop
    ensures AtHandshakes(s.pc) || AtConnections(s.pc)
  {
  }

  lemma StopLowers(s: State, step: Step)
    requires Enabled(s, step) && (step == StopHandshakes || step == StopConnections)
    ensures DrainMeasure(Apply(s, step)) <= DrainMeasure(s) && Distance(Apply(s, step).pc) < Distance(s.pc)
  {
  }

  lemma AcceptAdds(s: State)
    requires Enabled(s, Accept)
    ensures var t := Apply(s, Accept);
      && t.handshaking.Keys <= s.handshaking.Keys + {s.taken} && t.serving == s.serving
      && Distance(t.pc) + 7 == Distance(s.pc)
  {
  }

  lemma PollLowers(s: State, step: Step)
    requires s.hard && s.soft && Enabled(s, step)
    requires !IsJoin(step) && step != StopHandshakes && step != StopConnections && step != Accept
    ensures var t := Apply(s, step);
      && t.handshaking.Keys == s.handshaking.Keys && t.serving == s.serving
      && if IsOwn(step) then Distance(t.pc) < Distance(s.pc) else t.pc == s.pc
  {
  }

  /** Once the hard token is cancelled, the listener takes at most as many steps of its own as the tasks
      alive then allow, however the rest of the program interleaves; and since it is never stuck, it
      returns. */
  lemma {:induction false} HardShutdownIsBounded(before: seq<Step>, after: seq<Step>)
    requires IsRun(before) && IsRun(before + after) && CancelHard in before
    ensures var s, t := Exec(before).value, Exec(before + after).value;
      && OwnSteps(after) + StepsLeft(t) <= StepsLeft(s)
      && (OwnSteps(after) == StepsLeft(s) ==> t.pc == Returned)
      && StepsLeft(s) <= 3 * DrainMeasure(s) + 16
  {
    if after == [] {
      assert before + after == before;
    } else {
      hide Enabled, Apply, StepsLeft;
      var front, last := after[..|after| - 1], after[|after| - 1];
      assert before + after == before + front + [last];
      ExecStep(before + front, last);
      HardShutdownIsBounded(before, front);
      hide Exec;
      HardIsSoft(before + front);
      HardShutdownStep(Exec(before + front).value, last);
    }
    AtTheEnd(Exec(before + after).value);
    AtTheEnd(Exec(before).value);
  }

  lemma HardIsSoft(steps: seq<Step>)
    requires IsRun(steps) && CancelHard in steps
    ensures Exec(steps).value.hard && Exec(steps).value.soft
  {
    hide Exec, Accounted, SpawnedOnce, Controlled;
    RunIsSafe(steps);
    HardNeedsCancel(steps);
  }

  lemma AtTheEnd(s: State)
    ensures StepsLeft(s) == 0 ==> s.pc == Returned
    ensures StepsLeft(s) <= 3 * DrainMeasure(s) + 16
  {
  }

  // ---------------------------------------------------------------- the loop itself

  /** What one iteration of a `select!` resolves to; a branch whose set is empty is disabled. */
  datatype Round =
    | HandshakeDone(outcome: Handshake)
    | ConnectionDone(ending: Ending)
    | Incoming
    | SoftCancelledSeen
    | HardCancelledSeen
    | Nothing

  /** The machine stands where a loop iteration begins, with every spawned task still running. */
  ghost predicate AtRest(s: State) {
    (s.pc == DrainTop || (s.pc == PollSoft && !s.soft)) && AllRunning(s)
  }

  ghost predicate AllRunning(s: State) {
    && (forall c :: c in s.handshaking ==> s.handshaking[c] == Ongoing)
    && (forall c :: c in s.serving ==> c in s.connections && s.connections[c].ended.None?)
  }

  ghost predicate Stands(steps: seq<Step>, s: State) {
    Exec(steps) == Some(s) && (s.hard <==> CancelHard in steps)
  }

  lemma Advance(steps: seq<Step>, s: State, step: Step) returns (more: seq<Step>, t: State)
    requires Stands(steps, s) && Enabled(s, step)
    ensures Stands(more, t) && t == Apply(s, step)
  {
    more, t := steps + [step], Apply(s, step);
    ExecStep(steps, step);
    HardNeedsCancel(more);
  }

  lemma EnterRound(steps: seq<Step>, s: State) returns (more: seq<Step>, t: State)
    requires Stands(steps, s) && AtRest(s)
    requires s.pc == DrainTop ==> s.handshaking != map[] || s.serving != {}
    ensures Stands(more, t)
    ensures t == s.(pc := if s.pc == PollSoft then PollHandshakes else DrainHandshakes)
  {
    more, t := Advance(steps, s, if s.pc == PollSoft then PassSoft else CheckDrain);
  }

  lemma HandshakeRound(steps: seq<Step>, s: State, c: Socket, outcome: Handshake) returns (more: seq<Step>, t: State)
    requires Stands(steps, s) && AtRest(s) && c in s.handshaking && outcome != Ongoing
    ensures Stands(more, t) && AtRest(t) && t.pc == s.pc && t.soft == s.soft && t.hard == s.hard
    ensures t.handshaking.Keys == s.handshaking.Keys - {c}
    ensures t.serving == (if outcome == Connected then s.serving + {c} else s.serving)
    ensures t.failed == (if outcome == Connected then s.failed else s.failed + {c})
    ensures t.taken == s.taken && t.finished == s.finished && t.aborted == s.aborted
  {
    more, t := EnterRound(steps, s);
    more, t := Advance(more, t, EndHandshake(c, outcome));
    more, t := Advance(more, t, JoinHandshake(c));
  }

  lemma ConnectionRound(steps: seq<Step>, s: State, c: Socket, ending: Ending) returns (more: seq<Step>, t: State)
    requires Stands(steps, s) && AtRest(s) && c in s.serving
    ensures Stands(more, t) && AtRest(t) && t.pc == s.pc && t.soft == s.soft && t.hard == s.hard
    ensures t.serving == s.serving - {c} && t.handshaking == s.handshaking
    ensures t.finished == (if ending == Closed then s.finished + {c} else s.finished)
    ensures t.failed == (if ending == Closed then s.failed else s.failed + {c})
    ensures t.taken == s.taken && t.aborted == s.aborted
  {
    more, t := EnterRound(steps, s);
    more, t := Advance(more, t, PassHandshakes);
    more, t := Advance(more, t, PollConnection(c, Some(ending)));
    more, t := Advance(more, t, JoinConnection(c));
  }

  lemma IncomingRound(steps: seq<Step>, s: State) returns (more: seq<Step>, t: State)
    requires Stands(steps, s) && AtRest(s) && s.pc == PollSoft
    ensures Stands(more, t) && AtRest(t)
    ensures t == s.(taken := s.taken + 1, handshaking := s.handshaking[s.taken := Ongoing])
  {
    more, t := EnterRound(steps, s);
    more, t := Advance(more, t, PassHandshakes);
    more, t := Advance(more, t, PassConnections);
    more, t := Advance(more, t, Accept);
  }

  lemma CancelRound(steps: seq<Step>, s: State, hard: bool) returns (more: seq<Step>, t: State)
    requires Stands(steps, s) && AtRest(s)
    requires s.pc == DrainTop ==> hard && (s.handshaking != map[] || s.serving != {})
    ensures Stands(more, t) && AllRunning(t) && (t.hard <==> s.hard || hard)
    ensures t.handshaking == s.handshaking && t.serving == s.serving
    ensures t.taken == s.taken && t.finished == s.finished && t.failed == s.failed && t.aborted == s.aborted
    ensures s.pc == PollSoft ==> AtRest(t) && t.pc == DrainTop
    ensures s.pc == DrainTop ==> t.pc == ToStopHandshakes
  {
    if s.pc == PollSoft {
      more, t := Advance(steps, s, if hard then CancelHard else CancelSoft);
      more, t := Advance(more, t, SeeSoft);
    } else {
      more, t := EnterRound(steps, s);
      more, t := Advance(more, t, PassHandshakes);
      more, t := Advance(more, t, PassConnections);
      more, t := Advance(more, t, CancelHard);
      more, t := Advance(more, t, SeeHard);
    }
  }

  lemma StopRound(steps: seq<Step>, s: State) returns (more: seq<Step>, t: State)
    requires Stands(steps, s) && AllRunning(s)
    requires s.pc == ToStopHandshakes || (s.pc == DrainTop && s.handshaking == map[] && s.serving == {})
    ensures Stands(more, t) && t.pc == Returned && t.taken == s.taken && t.hard == s.hard
    ensures t.finished == s.finished && t.failed == s.failed
    ensures t.handshaking == map[] && t.serving == {}
    ensures t.aborted == s.aborted + s.handshaking.Keys + s.serving
  {
    more, t := steps, s;
    if s.pc == DrainTop {
      more, t := Advance(more, t, CheckDrain);
    }
    more, t := Advance(more, t, StopHandshakes);
    more, t := Advance(more, t, StopConnections);
  }

  /** The two `JoinSet`s of `run_servers`, and what became of the sockets that left them. */
  datatype Tasks = Tasks(accepted: nat, acceptTasks: set<Socket>, connectionTasks: set<Socket>,
                         finished: set<Socket>, failed: set<Socket>, aborted: set<Socket>)

  ghost predicate Tracks(s: State, t: Tasks) {
    && s.taken == t.accepted && s.handshaking.Keys == t.acceptTasks && s.serving == t.connectionTasks
    && s.finished == t.finished && s.failed == t.failed && s.aborted == t.aborted
  }

  datatype Phase = Serving | Drained | Done

  /** How many sockets are where, which does not depend on which of several finished tasks a join
      happens to return. */
  datatype Tally = Tally(phase: Phase, accepted: nat, handshakes: nat, connections: nat,
                         finished: nat, failed: nat, aborted: nat)

  function Settled(t: Tally): Tally {
    if t.phase == Drained && t.handshakes == t.connections == 0 then t.(phase := Done) else t
  }

  function Counted(t: Tally, round: Round): Tally {
    if t.phase == Done then t
    else match round
      case HandshakeDone(outcome) =>
        if outcome == Ongoing || t.handshakes == 0 then t
        else if outcome == Connected then t.(handshakes := t.handshakes - 1, connections := t.connections + 1)
        else Settled(t.(handshakes := t.handshakes - 1, failed := t.failed + 1))
      case ConnectionDone(ending) =>
        if t.connections == 0 then t
        else if ending == Closed then Settled(t.(connections := t.connections - 1, finished := t.finished + 1))
        else Settled(t.(connections := t.connections - 1, failed := t.failed + 1))
      case Incoming =>
        if t.phase == Serving then t.(accepted := t.accepted + 1, handshakes := t.handshakes + 1) else t
      case SoftCancelledSeen =>
        if t.phase == Serving then Settled(t.(phase := Drained)) else t
      case HardCancelledSeen =>
        if t.phase == Serving then Settled(t.(phase := Drained))
        else t.(phase := Done, handshakes := 0, connections := 0, aborted := t.aborted + t.handshakes + t.connections)
      case Nothing => t
  }

  function Count(rounds: seq<Round>): Tally {
    if rounds == [] then Tally(Serving, 0, 0, 0, 0, 0, 0)
    else Counted(Count(rounds[..|rounds| - 1]), rounds[|rounds| - 1])
  }

  lemma CountStep(rounds: seq<Round>, i: nat)
    requires i < |rounds|
    ensures Count(rounds[..i + 1]) == Counted(Count(rounds[..i]), rounds[i])
  {
    assert rounds[..i + 1][..i] == rounds[..i];
  }

  lemma {:induction false} DoneIsFinal(rounds: seq<Round>, i: nat)
    requires i <= |rounds| && Count(rounds[..i]).phase == Done
    ensures Count(rounds) == Count(rounds[..i])
  {
    if i < |rounds| {
      var front := rounds[..|rounds| - 1];
      assert front[..i] == rounds[..i];
      DoneIsFinal(front, i);
    } else {
      assert rounds[..i] == rounds;
    }
  }

  // What the counts are, told from the rounds alone.

  function Times(rounds: seq<Round>, r: Round): nat { multiset(rounds)[r] }

  /** The handshakes that ended without a connection. */
  function Refused(rounds: seq<Round>): nat {
    Times(rounds, HandshakeDone(Rejected)) + Times(rounds, HandshakeDone(HandshakePanicked))
  }

  function Handshakes(rounds: seq<Round>): nat { Times(rounds, HandshakeDone(Connected)) + Refused(rounds) }

  function Endings(rounds: seq<Round>): nat {
    Times(rounds, ConnectionDone(Closed)) + Times(rounds, ConnectionDone(ServingPanicked))
  }

  /** What a `select!` can resolve to after these rounds: a set that is empty is not waited for, and the
      stream not any more once a token was seen. */
  predicate Possible(rounds: seq<Round>, r: Round) {
    match r
    case HandshakeDone(o) => o != Ongoing && Handshakes(rounds) < Times(rounds, Incoming)
    case ConnectionDone(_) => Endings(rounds) < Times(rounds, HandshakeDone(Connected))
    case Incoming => SoftCancelledSeen !in rounds
    case SoftCancelledSeen => SoftCancelledSeen !in rounds
    case HardCancelledSeen => false
    case Nothing => true
  }

  predicate AllPossible(rounds: seq<Round>) {
    forall i :: 0 <= i < |rounds| ==> Possible(rounds[..i], rounds[i])
  }

  function Expected(rounds: seq<Round>): Tally
    requires Handshakes(rounds) <= Times(rounds, Incoming)
    requires Endings(rounds) <= Times(rounds, HandshakeDone(Connected))
  {
    Tallied(SoftCancelledSeen in rounds, Times(rounds, Incoming), Times(rounds, HandshakeDone(Connected)),
            Refused(rounds), Times(rounds, ConnectionDone(Closed)), Times(rounds, ConnectionDone(ServingPanicked)))
  }

  function Tallied(soft: bool, incoming: nat, connected: nat, refused: nat, closed: nat, panicked: nat): Tally
    requires connected + refused <= incoming && closed + panicked <= connected
  {
    var handshakes, connections := incoming - connected - refused, connected - closed - panicked;
    Tally(if !soft then Serving else if handshakes == connections == 0 then Done else Drained,
          incoming, handshakes, connections, closed, refused + panicked, 0)
  }

  /** Without a hard cancellation: every incoming socket counts, every handshake that connected is a
      connection until it ends, every closed connection is finished, all else has failed, nothing is
      aborted. */
  lemma {:induction false} CountIsExpected(rounds: seq<Round>)
    requires AllPossible(rounds)
    ensures Handshakes(rounds) <= Times(rounds, Incoming)
    ensures Endings(rounds) <= Times(rounds, HandshakeDone(Connected))
    ensures Count(rounds) == Expected(rounds)
  {
    hide Count, AllPossible, Possible, Handshakes, Endings, Expected, Counted, Times;
    if rounds == [] {
      NothingExpected(rounds);
    } else {
      var front, last := rounds[..|rounds| - 1], rounds[|rounds| - 1];
      PossibleFront(rounds);
      CountIsExpected(front);
      OneMoreRound(front, last);
      CountLast(rounds);
      assert rounds == front + [last];
    }
  }

  lemma NothingExpected(rounds: seq<Round>)
    requires rounds == []
    ensures Handshakes(rounds) <= Times(rounds, Incoming)
    ensures Endings(rounds) <= Times(rounds, HandshakeDone(Connected))
    ensures Count(rounds) == Expected(rounds)
  {
    assert multiset(rounds) == multiset{};
  }

  lemma PossibleFront(rounds: seq<Round>)
    requires rounds != [] && AllPossible(rounds)
    ensures AllPossible(rounds[..|rounds| - 1]) && Possible(rounds[..|rounds| - 1], rounds[|rounds| - 1])
  {
    hide Possible;
    var front := rounds[..|rounds| - 1];
    forall i | 0 <= i < |front| ensures Possible(front[..i], front[i]) {
      assert front[..i] == rounds[..i];
    }
  }

  lemma CountLast(rounds: seq<Round>)
    requires rounds != []
    ensures Count(rounds) == Counted(Count(rounds[..|rounds| - 1]), rounds[|rounds| - 1])
  {
  }

  lemma TimesSnoc(rounds: seq<Round>, r: Round)
    ensures forall x :: Times(rounds + [r], x) == Times(rounds, x) + if r == x then 1 else 0
    ensures SoftCancelledSeen in rounds + [r] <==> SoftCancelledSeen in rounds || r == SoftCancelledSeen
  {
    assert multiset(rounds + [r]) == multiset(rounds) + multiset{r};
  }

  lemma OneMoreRound(rounds: seq<Round>, r: Round)
    requires Handshakes(rounds) <= Times(rounds, Incoming)
    requires Endings(rounds) <= Times(rounds, HandshakeDone(Connected)) && Possible(rounds, r)
    ensures var more := rounds + [r];
      && Handshakes(more) <= Times(more, Incoming) && Endings(more) <= Times(more, HandshakeDone(Connected))
      && Expected(more) == Counted(Expected(rounds), r)
  {
    TimesSnoc(rounds, r);
    hide Times, Counted, Tallied;
    TalliedStep(SoftCancelledSeen in rounds, Times(rounds, Incoming), Times(rounds, HandshakeDone(Connected)),
                Refused(rounds), Times(rounds, ConnectionDone(Closed)),
                Times(rounds, ConnectionDone(ServingPanicked)), r);
  }

  lemma TalliedStep(soft: bool, incoming: nat, connected: nat, refused: nat, closed: nat, panicked: nat, r: Round)
    requires connected + refused <= incoming && closed + panicked <= connected
    ensures Counted(Tallied(soft, incoming, connected, refused, closed, panicked), Nothing)
         == Tallied(soft, incoming, connected, refused, closed, panicked)
    ensures !soft ==>
      && Counted(Tallied(soft, incoming, connected, refused, closed, panicked), SoftCancelledSeen)
           == Tallied(true, incoming, connected, refused, closed, panicked)
      && Counted(Tallied(soft, incoming, connected, refused, closed, panicked), Incoming)
           == Tallied(soft, incoming + 1, connected, refused, closed, panicked)
    ensures r.HandshakeDone? && r.outcome != Ongoing && connected + refused < incoming ==>
      Counted(Tallied(soft, incoming, connected, refused, closed, panicked), r)
        == if r.outcome == Connected then Tallied(soft, incoming, connected + 1, refused, closed, panicked)
           else Tallied(soft, incoming, connected, refused + 1, closed, panicked)
    ensures r.ConnectionDone? && closed + panicked < connected ==>
      Counted(Tallied(soft, incoming, connected, refused, closed, panicked), r)
        == if r.ending == Closed then Tallied(soft, incoming, connected, refused, closed + 1, panicked)
           else Tallied(soft, incoming, connected, refused, closed, panicked + 1)
  {
  }

  /** A hard cancellation during the drain aborts whatever is left, and ends it. */
  lemma HardCountIsExpected(rounds: seq<Round>)
    requires AllPossible(rounds) && Count(rounds).phase == Drained
    ensures Handshakes(rounds) <= Times(rounds, Incoming)
    ensures Endings(rounds) <= Times(rounds, HandshakeDone(Connected))
    ensures var left := Expected(rounds);
      Count(rounds + [HardCancelledSeen])
        == left.(phase := Done, handshakes := 0, connections := 0, aborted := left.handshakes + left.connections)
  {
    CountIsExpected(rounds);
    assert (rounds + [HardCancelledSeen])[..|rounds|] == rounds;
    CountLast(rounds + [HardCancelledSeen]);
    hide Count, AllPossible, Handshakes, Endings, Times;
  }

  function Sizes(t: Tasks, phase: Phase): Tally {
    Tally(phase, t.accepted, |t.acceptTasks|, |t.connectionTasks|, |t.finished|, |t.failed|, |t.aborted|)
  }

  /** What a drain has still to join: two for a handshake, which may become a connection. */
  function Load(t: Tasks): nat { 2 * |t.acceptTasks| + |t.connectionTasks| }

  lemma Moved(from: set<Socket>, to: set<Socket>, c: Socket)
    requires c in from && c !in to
    ensures |from - {c}| == |from| - 1 && |to + {c}| == |to| + 1
  {
  }

  lemma TasksAreFresh(steps: seq<Step>, s: State, c: Socket)
    requires Stands(steps, s) && (c in s.handshaking.Keys || c in s.serving)
    ensures c !in s.finished && c !in s.failed
    ensures c in s.handshaking.Keys ==> c !in s.serving
  {
    RunIsSafe(steps);
  }

  lemma NextIsFresh(steps: seq<Step>, s: State)
    requires Stands(steps, s)
    ensures s.taken !in s.handshaking.Keys
  {
    RunIsSafe(steps);
  }

  lemma SetsAreDisjoint(steps: seq<Step>, s: State)
    requires Stands(steps, s)
    ensures |s.aborted + s.handshaking.Keys + s.serving| == |s.aborted| + |s.handshaking.Keys| + |s.serving|
  {
    hide Exec, Controlled, TokensNested, SpawnedOnce;
    RunIsSafe(steps);
    ThreeDisjoint(s.aborted, s.handshaking.Keys, s.serving);
  }

  lemma ThreeDisjoint(a: set<Socket>, b: set<Socket>, c: set<Socket>)
    requires a !! b && a !! c && b !! c
    ensures |a + b + c| == |a| + |b| + |c|
  {
    assert (a + b) !! c;
  }

  /** Draining counts the joins as accepting does, and is over when both sets are empty. */
  lemma CountedWhenDraining(t: Tally, round: Round)
    requires t.handshakes > 0 || t.connections > 0
    requires !round.Incoming? && !round.SoftCancelledSeen? && !round.HardCancelledSeen?
    ensures Counted(t.(phase := Drained), round) == Settled(Counted(t.(phase := Serving), round).(phase := Drained))
  {
  }

  /** A finished handshake is returned by `join_next`, any of them: it spawns a connection or is dropped. */
  method JoinAcceptTask(t: Tasks, outcome: Handshake, ghost steps: seq<Step>, ghost s: State)
    returns (t': Tasks, ghost steps': seq<Step>, ghost s': State)
    requires Stands(steps, s) && AtRest(s) && Tracks(s, t) && t.acceptTasks != {} && outcome != Ongoing
    ensures Stands(steps', s') && AtRest(s') && Tracks(s', t') && s'.pc == s.pc && s'.hard == s.hard
    ensures Sizes(t', Serving) == Counted(Sizes(t, Serving), HandshakeDone(outcome)) && Load(t') < Load(t)
  {
    hide Exec, Enabled, Apply, Counted, AtRest, Load;
    var c :| c in t.acceptTasks;
    TasksAreFresh(steps, s, c);
    steps', s' := HandshakeRound(steps, s, c, outcome);
    AcceptTally(t, c, outcome);
    if outcome == Connected {
      t' := t.(acceptTasks := t.acceptTasks - {c}, connectionTasks := t.connectionTasks + {c});
    } else {
      t' := t.(acceptTasks := t.acceptTasks - {c}, failed := t.failed + {c});
    }
  }

  lemma AcceptTally(t: Tasks, c: Socket, outcome: Handshake)
    requires c in t.acceptTasks && c !in t.connectionTasks && c !in t.failed && outcome != Ongoing
    ensures var t' := if outcome == Connected
        then t.(acceptTasks := t.acceptTasks - {c}, connectionTasks := t.connectionTasks + {c})
        else t.(acceptTasks := t.acceptTasks - {c}, failed := t.failed + {c});
      Sizes(t', Serving) == Counted(Sizes(t, Serving), HandshakeDone(outcome)) && Load(t') < Load(t)
  {
    Moved(t.acceptTasks, t.connectionTasks, c);
    Moved(t.acceptTasks, t.failed, c);
  }

  method JoinConnectionTask(t: Tasks, ending: Ending, ghost steps: seq<Step>, ghost s: State)
    returns (t': Tasks, ghost steps': seq<Step>, ghost s': State)
    requires Stands(steps, s) && AtRest(s) && Tracks(s, t) && t.connectionTasks != {}
    ensures Stands(steps', s') && AtRest(s') && Tracks(s', t') && s'.pc == s.pc && s'.hard == s.hard
    ensures Sizes(t', Serving) == Counted(Sizes(t, Serving), ConnectionDone(ending)) && Load(t') < Load(t)
  {
    hide Exec, Enabled, Apply, Counted, AtRest, Load;
    var c :| c in t.connectionTasks;
    TasksAreFresh(steps, s, c);
    steps', s' := ConnectionRound(steps, s, c, ending);
    ConnectionTally(t, c, ending);
    if ending == Closed {
      t' := t.(connectionTasks := t.connectionTasks - {c}, finished := t.finished + {c});
    } else {
      t' := t.(connectionTasks := t.connectionTasks - {c}, failed := t.failed + {c});
    }
  }

  lemma ConnectionTally(t: Tasks, c: Socket, ending: Ending)
    requires c in t.connectionTasks && c !in t.finished && c !in t.failed
    ensures var t' := if ending == Closed
        then t.(connectionTasks := t.connectionTasks - {c}, finished := t.finished + {c})
        else t.(connectionTasks := t.connectionTasks - {c}, failed := t.failed + {c});
      Sizes(t', Serving) == Counted(Sizes(t, Serving), ConnectionDone(ending)) && Load(t') < Load(t)
  {
    Moved(t.connectionTasks, t.finished, c);
    Moved(t.connectionTasks, t.failed, c);
  }

  /** The two join branches, guarded by their set being non-empty, are the same in both loops. */
  method Join(round: Round, t: Tasks, ghost steps: seq<Step>, ghost s: State)
    returns (t': Tasks, ghost steps': seq<Step>, ghost s': State)
    requires Stands(steps, s) && AtRest(s) && Tracks(s, t)
    requires round.HandshakeDone? || round.ConnectionDone? || round.Nothing?
    ensures Stands(steps', s') && AtRest(s') && Tracks(s', t') && s'.pc == s.pc && s'.hard == s.hard
    ensures Sizes(t', Serving) == Counted(Sizes(t, Serving), round) && (t' == t || Load(t') < Load(t))
  {
    t', steps', s' := t, steps, s;
    if round.HandshakeDone? && round.outcome != Ongoing && t.acceptTasks != {} {
      t', steps', s' := JoinAcceptTask(t, round.outcome, steps, s);
    } else if round.ConnectionDone? && t.connectionTasks != {} {
      t', steps', s' := JoinConnectionTask(t, round.ending, steps, s);
    }
  }

  method AcceptConnection(t: Tasks, ghost steps: seq<Step>, ghost s: State)
    returns (t': Tasks, ghost steps': seq<Step>, ghost s': State)
    requires Stands(steps, s) && AtRest(s) && Tracks(s, t) && s.pc == PollSoft
    ensures Stands(steps', s') && AtRest(s') && Tracks(s', t') && s'.pc == s.pc && s'.hard == s.hard
    ensures Sizes(t', Serving) == Counted(Sizes(t, Serving), Incoming)
  {
    hide Exec, Enabled, Apply;
    NextIsFresh(steps, s);
    steps', s' := IncomingRound(steps, s);
    t' := t.(accepted := t.accepted + 1, acceptTasks := t.acceptTasks + {t.accepted});
  }

  /** What a caller of `run_servers` gets: where every socket ended, as the machine has it. */
  ghost predicate Outcome(rounds: seq<Round>, steps: seq<Step>, t: Tasks, returned: bool) {
    && IsRun(steps)
    && Tracks(Exec(steps).value, t)
    && (returned <==> Exec(steps).value.pc == Returned)
    && (Exec(steps).value.hard ==> HardCancelledSeen in rounds)
    && (returned <==> Count(rounds).phase == Done)
    && Sizes(t, Count(rounds).phase) == Count(rounds)
  }

  /** The accept loop of `run_servers`, then the drain. Whatever the `select!`s resolve to, the
      execution is a run of the machine and its numbers are those of `Count`. */
  method RunServers(rounds: seq<Round>) returns (t: Tasks, returned: bool, ghost steps: seq<Step>)
    ensures Outcome(rounds, steps, t, returned)
    ensures Sizes(t, Count(rounds).phase) == Count(rounds) && (returned <==> Count(rounds).phase == Done)
    ensures returned ==> t.finished + t.failed + t.aborted == Numbers(t.accepted)
    ensures t.finished !! t.failed !! t.aborted && (HardCancelledSeen !in rounds ==> t.aborted == {})
  {
    t, returned, steps := Tasks(0, {}, {}, {}, {}, {}), false, [];
    ghost var s := Init();
    var i, softSeen := 0, false;
    assert Exec([]) == Some(Init()) && Count(rounds[..0]) == Sizes(t, Serving);
    hide Exec, Count, Enabled, Apply;

    while i < |rounds| && !softSeen
      invariant 0 <= i <= |rounds|
      invariant Stands(steps, s) && AtRest(s) && Tracks(s, t) && (s.pc == DrainTop <==> softSeen)
      invariant s.hard ==> HardCancelledSeen in rounds
      invariant Count(rounds[..i]) == if softSeen then Settled(Sizes(t, Drained)) else Sizes(t, Serving)
      decreases |rounds| - i
    {
      CountStep(rounds, i);
      if rounds[i].SoftCancelledSeen? || rounds[i].HardCancelledSeen? {
        steps, s := CancelRound(steps, s, rounds[i].HardCancelledSeen?);
        softSeen := true;
      } else if rounds[i].Incoming? {
        t, steps, s := AcceptConnection(t, steps, s);
      } else {
        t, steps, s := Join(rounds[i], t, steps, s);
      }
      i := i + 1;
    }
    if softSeen {
      t, returned, steps := Drain(rounds, i, t, steps, s);
    } else {
      assert rounds[..i] == rounds;
    }
    OutcomeIsSafe(rounds, steps, t, returned);
  }

  /** The drain loop: it is left when nothing is left to join, and early only at the hard token. */
  method DrainLoop(rounds: seq<Round>, start: nat, tasks: Tasks, ghost stepsIn: seq<Step>, ghost sIn: State)
    returns (t: Tasks, i: nat, hardSeen: bool, ghost steps: seq<Step>, ghost s: State)
    requires start <= |rounds| && Count(rounds[..start]) == Settled(Sizes(tasks, Drained))
    requires Stands(stepsIn, sIn) && AtRest(sIn) && sIn.pc == DrainTop && Tracks(sIn, tasks)
    ensures start <= i <= |rounds| && Count(rounds[..i]) == Settled(Sizes(t, Drained))
    ensures Stands(steps, s) && AtRest(s) && s.pc == DrainTop && Tracks(s, t) && s.hard == sIn.hard
    ensures hardSeen ==> i < |rounds| && rounds[i].HardCancelledSeen? && Load(t) > 0
    ensures !hardSeen ==> i == |rounds| || Load(t) == 0
  {
    hide Exec, Count, Enabled, Apply;
    t, i, hardSeen, steps, s := tasks, start, false, stepsIn, sIn;
    while (t.acceptTasks != {} || t.connectionTasks != {}) && i < |rounds|
      invariant start <= i <= |rounds|
      invariant Stands(steps, s) && AtRest(s) && s.pc == DrainTop && Tracks(s, t) && s.hard == sIn.hard
      invariant Count(rounds[..i]) == Settled(Sizes(t, Drained))
    {
      CountStep(rounds, i);
      if rounds[i].HardCancelledSeen? {
        hardSeen := true;
        return;
      } else if !rounds[i].Incoming? && !rounds[i].SoftCancelledSeen? {
        CountedWhenDraining(Sizes(t, Drained), rounds[i]);
        t, steps, s := Join(rounds[i], t, steps, s);
      }
      i := i + 1;
    }
  }

  /** The drain and the final shutdown. */
  method Drain(rounds: seq<Round>, start: nat, tasks: Tasks, ghost stepsIn: seq<Step>, ghost sIn: State)
    returns (t: Tasks, returned: bool, ghost steps: seq<Step>)
    requires start <= |rounds| && Count(rounds[..start]) == Settled(Sizes(tasks, Drained))
    requires Stands(stepsIn, sIn) && AtRest(sIn) && sIn.pc == DrainTop && Tracks(sIn, tasks)
    requires sIn.hard ==> HardCancelledSeen in rounds
    ensures Outcome(rounds, steps, t, returned)
  {
    hide Exec, Count, Enabled, Apply;
    var i, hardSeen;
    ghost var s;
    t, i, hardSeen, steps, s := DrainLoop(rounds, start, tasks, stepsIn, sIn);
    returned := true;
    if hardSeen {
      CountStep(rounds, i);
      t, steps := Abort(t, steps, s);
      DoneIsFinal(rounds, i + 1);
    } else if t.acceptTasks == {} && t.connectionTasks == {} {
      steps := StopIdle(t, steps, s);
      DoneIsFinal(rounds, i);
    } else {
      assert rounds[..i] == rounds;
      returned := false;
    }
  }

  lemma StopIdle(t: Tasks, steps: seq<Step>, s: State) returns (steps': seq<Step>)
    requires Stands(steps, s) && AtRest(s) && s.pc == DrainTop && Tracks(s, t)
    requires t.acceptTasks == {} && t.connectionTasks == {}
    ensures Exec(steps').Some? && Exec(steps').value.pc == Returned && Tracks(Exec(steps').value, t)
    ensures Exec(steps').value.hard == s.hard
  {
    assert s.handshaking == map[];
    var s';
    steps', s' := StopRound(steps, s);
    assert s'.aborted == s.aborted;
  }

  /** The hard token is seen: both sets are shut down with tasks still running. */
  method Abort(t: Tasks, ghost steps: seq<Step>, ghost s: State) returns (t': Tasks, ghost steps': seq<Step>)
    requires Stands(steps, s) && AtRest(s) && s.pc == DrainTop && Tracks(s, t)
    requires t.acceptTasks != {} || t.connectionTasks != {}
    ensures Exec(steps').Some? && Exec(steps').value.pc == Returned && Tracks(Exec(steps').value, t')
    ensures Sizes(t', Done) == Counted(Sizes(t, Drained), HardCancelledSeen)
  {
    hide Exec, Enabled, Apply, Counted;
    SetsAreDisjoint(steps, s);
    steps' := Forced(t, steps, s);
    t' := t.(acceptTasks := {}, connectionTasks := {}, aborted := t.aborted + t.acceptTasks + t.connectionTasks);
    AbortedTally(t);
  }

  lemma Forced(t: Tasks, steps: seq<Step>, s: State) returns (steps': seq<Step>)
    requires Stands(steps, s) && AtRest(s) && s.pc == DrainTop && Tracks(s, t)
    requires t.acceptTasks != {} || t.connectionTasks != {}
    ensures Exec(steps').Some? && Exec(steps').value.pc == Returned
    ensures Tracks(Exec(steps').value,
                   t.(acceptTasks := {}, connectionTasks := {},
                      aborted := t.aborted + t.acceptTasks + t.connectionTasks))
  {
    assert s.handshaking != map[] || s.serving != {};
    hide Exec, Enabled, Apply, AtRest, AllRunning;
    var s';
    steps', s' := CancelRound(steps, s, true);
    steps', s' := StopRound(steps', s');
  }

  lemma AbortedTally(t: Tasks)
    requires |t.aborted + t.acceptTasks + t.connectionTasks| == |t.aborted| + |t.acceptTasks| + |t.connectionTasks|
    ensures Sizes(t.(acceptTasks := {}, connectionTasks := {},
                     aborted := t.aborted + t.acceptTasks + t.connectionTasks), Done)
         == Counted(Sizes(t, Drained), HardCancelledSeen)
  {
  }

  /** What the outcome means to the caller: a returned server has settled every socket it took, and
      aborted none of them unless the hard token was cancelled. */
  lemma OutcomeIsSafe(rounds: seq<Round>, steps: seq<Step>, t: Tasks, returned: bool)
    requires Outcome(rounds, steps, t, returned)
    ensures returned ==> t.finished + t.failed + t.aborted == Numbers(t.accepted)
    ensures t.finished !! t.failed !! t.aborted
    ensures HardCancelledSeen !in rounds ==> t.aborted == {}
  {
    RunIsSafe(steps);
  }
}
