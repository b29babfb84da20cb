/** The lifecycle manager (crates/cli/src/lifecycle.rs) and its composition with the listener task
    that it shuts down: one machine in which signals, reloads, crashing tasks, the two cancellation
    tokens, the task tracker and the sockets of the listener interleave freely. */
module Lifecycle {
  import opened Text
  import Listener

  datatype Notification = Ready | Watchdog | Reloading | Stopping

  datatype ExitCode = Success | Failure

  /** What ends the first wait, and what ends the second one. */
  datatype First = SoftToken | Sigterm | Sigint
  datatype Second = SecondSigterm | SecondSigint | Timeout | TrackerDone

  datatype Pc =
    | Starting
    | FirstWait
    | ReloadingHandlers(done: set<nat>)
    | CancellingSoft(crashed: bool)
    | ClosingTracker(crashed: bool)
    | SecondWait(crashed: bool)
    | CancellingHard(crashed: bool)
    | LastWait(crashed: bool)
    | Exited(code: ExitCode)

  /** The manager's own state; reload handlers are numbered in order of registration. */
  datatype Manager = Manager(pc: Pc, watchdog: bool, handlers: nat, closed: bool, notifications: seq<Notification>)

  datatype ManagerStep =
    | Start
    | Tick
    | Hup
    | Reload(handler: nat)
    | ReloadDone
    | EndFirst(cause: First)
    | CancelSoftToken
    | CloseTracker
    | EndSecond(reason: Second)
    | CancelHardToken
    | Return

  predicate CanManage(m: Manager, step: ManagerStep) {
    match step
    case Start => m.pc == Starting
    case Tick => m.pc == FirstWait && m.watchdog
    case Hup => m.pc == FirstWait
    case Reload(h) => m.pc.ReloadingHandlers? && h < m.handlers && h !in m.pc.done
    case ReloadDone => m.pc.ReloadingHandlers? && forall h: nat :: h < m.handlers ==> h in m.pc.done
    case EndFirst(_) => m.pc == FirstWait
    case CancelSoftToken => m.pc.CancellingSoft?
    case CloseTracker => m.pc.ClosingTracker?
    case EndSecond(_) => m.pc.SecondWait?
    case CancelHardToken => m.pc.CancellingHard?
    case Return => m.pc.LastWait?
  }

  function Managed(m: Manager, step: ManagerStep): Manager
    requires CanManage(m, step)
  {
    match step
    case Start => m.(pc := FirstWait, notifications := m.notifications + [Ready])
    case Tick => m.(notifications := m.notifications + [Watchdog])
    case Hup => m.(pc := ReloadingHandlers({}), notifications := m.notifications + [Notification.Reloading])
    case Reload(h) => m.(pc := ReloadingHandlers(m.pc.done + {h}))
    case ReloadDone => m.(pc := FirstWait, notifications := m.notifications + [Ready])
    case EndFirst(cause) => m.(pc := CancellingSoft(cause == SoftToken), notifications := m.notifications + [Stopping])
    case CancelSoftToken => m.(pc := ClosingTracker(m.pc.crashed))
    case CloseTracker => m.(pc := SecondWait(m.pc.crashed), closed := true)
    case EndSecond(_) => m.(pc := CancellingHard(m.pc.crashed))
    case CancelHardToken => m.(pc := LastWait(m.pc.crashed))
    case Return => m.(pc := Exited(if m.pc.crashed then Failure else Success))
  }

  // ---------------------------------------------------------------- manager, listener and other tasks

  /** The listener's state carries the two tokens; `others` are the remaining tracked tasks. */
  datatype System = System(manager: Manager, listener: Listener.State, others: set<nat>)

  datatype Step =
    | Manage(manage: ManagerStep)
    | Listen(listen: Listener.Step)
    | DropGuard
    | OtherSpawns(task: nat)
    | OtherEnds(task: nat)

  predicate TrackerEmpty(s: System) {
    s.listener.pc == Listener.Returned && s.others == {}
  }

  predicate Enabled(s: System, step: Step) {
    match step
    case Manage(m) =>
      && CanManage(s.manager, m)
      && (m == EndFirst(SoftToken) ==> s.listener.soft)
      && (m == EndSecond(TrackerDone) || m == Return ==> s.manager.closed && TrackerEmpty(s))
    case Listen(l) => l != Listener.CancelSoft && l != Listener.CancelHard && Listener.Enabled(s.listener, l)
    case DropGuard => !TrackerEmpty(s)
    case OtherSpawns(t) => !TrackerEmpty(s) && t !in s.others
    case OtherEnds(t) => t in s.others
  }

  /** What a step does to the listener: the manager reaches it through the tokens only. A task
      that crashes or ends drops the guard it holds on the soft token. */
  function ListenerSteps(step: Step): seq<Listener.Step> {
    match step
    case Manage(CancelSoftToken) => [Listener.CancelSoft]
    case Manage(CancelHardToken) => [Listener.CancelHard]
    case Listen(l) => [l]
    case DropGuard => [Listener.CancelSoft]
    case _ => []
  }

  function Apply(s: System, step: Step): System
    requires Enabled(s, step)
  {
    var ls := ListenerSteps(step);
    var s' := if ls == [] then s else s.(listener := Listener.Apply(s.listener, ls[0]));
    match step
    case Manage(m) => s'.(manager := Managed(s.manager, m))
    case OtherSpawns(t) => s'.(others := s.others + {t})
    case OtherEnds(t) => s'.(others := s.others - {t})
    case _ => s'
  }

  /** The tasks spawned before `run` are on the tracker when it starts. */
  function Init(watchdog: bool, handlers: nat, others: set<nat>): System {
    System(Manager(Starting, watchdog, handlers, false, []), Listener.Init(), others)
  }

  function Exec(s0: System, steps: seq<Step>): Option<System> {
    if steps == [] then Some(s0)
    else
      match Exec(s0, steps[..|steps| - 1])
      case None => None
      case Some(s) =>
        var step := steps[|steps| - 1];
        if Enabled(s, step) then Some(Apply(s, step)) else None
  }

  ghost predicate IsRun(s0: System, steps: seq<Step>) {
    && s0 == Init(s0.manager.watchdog, s0.manager.handlers, s0.others)
    && Exec(s0, steps).Some?
  }

  function Projection(steps: seq<Step>): seq<Listener.Step> {
    if steps == [] then [] else Projection(steps[..|steps| - 1]) + ListenerSteps(steps[|steps| - 1])
  }

  lemma ListenerEffect(s: System, step: Step)
    requires Enabled(s, step)
    ensures |ListenerSteps(step)| <= 1
    ensures ListenerSteps(step) == [] ==> Apply(s, step).listener == s.listener
    ensures ListenerSteps(step) != [] ==>
      && Listener.Enabled(s.listener, ListenerSteps(step)[0])
      && Apply(s, step).listener == Listener.Apply(s.listener, ListenerSteps(step)[0])
  {
  }

  /** The listener inside the system behaves like the listener alone, so that everything proved of
      its runs holds here. */
  lemma {:induction false} ListenerRuns(s0: System, steps: seq<Step>)
    requires IsRun(s0, steps)
    ensures Listener.Exec(Projection(steps)) == Some(Exec(s0, steps).value.listener)
  {
    if steps != [] {
      var front := steps[..|steps| - 1];
      var ls := ListenerSteps(steps[|steps| - 1]);
      ListenerRuns(s0, front);
      ListenerEffect(Exec(s0, front).value, steps[|steps| - 1]);
      if ls == [] {
        assert Projection(steps) == Projection(front);
      } else {
        assert Projection(steps) == Projection(front) + [ls[0]];
        Listener.ExecStep(Projection(front), ls[0]);
      }
    }
  }

  // ---------------------------------------------------------------- whole-run properties

  datatype Block = TickBlock | ReloadBlock

  function Spelling(b: Block): seq<Notification> {
    if b == TickBlock then [Watchdog] else [Notification.Reloading, Ready]
  }

  /** (Watchdog | Reloading Ready)* */
  function Spell(blocks: seq<Block>): seq<Notification> {
    if blocks == [] then []
    else Spell(blocks[..|blocks| - 1]) + Spelling(blocks[|blocks| - 1])
  }

  /** What the service manager has been told, by where the manager stands. */
  predicate Told(pc: Pc, n: seq<Notification>, blocks: seq<Block>) {
    match pc
    case Starting => n == []
    case FirstWait => n == [Ready] + Spell(blocks)
    case ReloadingHandlers(_) => n == [Ready] + Spell(blocks) + [Notification.Reloading]
    case _ => n == [Ready] + Spell(blocks) + [Stopping]
  }

  function NextBlocks(blocks: seq<Block>, step: Step): seq<Block> {
    match step
    case Manage(Tick) => blocks + [TickBlock]
    case Manage(ReloadDone) => blocks + [ReloadBlock]
    case Manage(Start) => []
    case _ => blocks
  }

  lemma ToldStep(m: Manager, step: ManagerStep, blocks: seq<Block>)
    requires Told(m.pc, m.notifications, blocks) && CanManage(m, step)
    ensures Told(Managed(m, step).pc, Managed(m, step).notifications, NextBlocks(blocks, Manage(step)))
  {
    assert forall b :: (blocks + [b])[..|blocks|] == blocks;
  }

  /** In every run the notifications follow the grammar Ready (Watchdog | Reloading Ready)* Stopping. */
  lemma {:induction false} NotificationGrammar(s0: System, steps: seq<Step>) returns (blocks: seq<Block>)
    requires IsRun(s0, steps)
    ensures var m := Exec(s0, steps).value.manager; Told(m.pc, m.notifications, blocks)
  {
    blocks := [];
    if steps != [] {
      var last := steps[|steps| - 1];
      blocks := NotificationGrammar(s0, steps[..|steps| - 1]);
      if last.Manage? {
        ToldStep(Exec(s0, steps[..|steps| - 1]).value.manager, last.manage, blocks);
      }
      blocks := NextBlocks(blocks, last);
    }
  }

  /** One while a reload is under way that handler `h` has not finished yet. */
  function Lag(m: Manager, h: nat): nat {
    if m.pc.ReloadingHandlers? && h !in m.pc.done then 1 else 0
  }

  lemma LagStep(m: Manager, step: ManagerStep, h: nat)
    requires CanManage(m, step) && h < m.handlers
    ensures Managed(m, step).handlers == m.handlers
    ensures Lag(Managed(m, step), h)
         == Lag(m, h) + (if step == Hup then 1 else 0) - (if step == Reload(h) then 1 else 0)
  {
  }

  /** Each SIGHUP runs every registered handler exactly once: outside a reload the runs of a handler
      equal the signals handled, and during one they lag by one until the handler is done. */
  lemma {:induction false} EachHupReloadsOnce(s0: System, steps: seq<Step>, h: nat)
    requires IsRun(s0, steps) && h < s0.manager.handlers
    ensures var m := Exec(s0, steps).value.manager;
      && m.handlers == s0.manager.handlers
      && multiset(steps)[Manage(Reload(h))] + Lag(m, h) == multiset(steps)[Manage(Hup)]
  {
    if steps != [] {
      var front := steps[..|steps| - 1];
      var last := steps[|steps| - 1];
      EachHupReloadsOnce(s0, front, h);
      assert multiset(steps) == multiset(front) + multiset{last} by { assert steps == front + [last]; }
      if last.Manage? {
        LagStep(Exec(s0, front).value.manager, last.manage, h);
      }
    }
  }

  predicate StoppingPc(pc: Pc) {
    !pc.Starting? && !pc.FirstWait? && !pc.ReloadingHandlers?
  }

  predicate HardPc(pc: Pc) { pc.LastWait? || pc.Exited? }

  predicate Crashed(pc: Pc)
    requires StoppingPc(pc)
  {
    if pc.Exited? then pc.code == Failure else pc.crashed
  }

  /** Where the manager stands tells what it has done: it alone cancels the hard token, it closes the
      tracker before the second wait, and it remembers whether the soft token ended the first wait. */
  ghost predicate History(s: System, steps: seq<Step>) {
    && (s.listener.hard <==> HardPc(s.manager.pc))
    && (StoppingPc(s.manager.pc) && !s.manager.pc.CancellingSoft? ==> s.listener.soft)
    && (s.manager.closed <==>
          StoppingPc(s.manager.pc) && !s.manager.pc.CancellingSoft? && !s.manager.pc.ClosingTracker?)
    && (StoppingPc(s.manager.pc) ==> (Crashed(s.manager.pc) <==> Manage(EndFirst(SoftToken)) in steps))
    && (!StoppingPc(s.manager.pc) ==> Manage(EndFirst(SoftToken)) !in steps)
    && (s.manager.pc.Exited? ==> TrackerEmpty(s))
  }

  lemma HistoryStep(s: System, steps: seq<Step>, step: Step)
    requires History(s, steps) && Enabled(s, step)
    ensures History(Apply(s, step), steps + [step])
  {
    match step
    case Listen(l) => Listener.OneWayStep(s.listener, l); TokensKept(s.listener, l);
    case _ =>
  }

  lemma TokensKept(s: Listener.State, l: Listener.Step)
    requires Listener.Enabled(s, l) && l != Listener.CancelSoft && l != Listener.CancelHard
    ensures Listener.Apply(s, l).hard == s.hard
    ensures s.pc == Listener.Returned ==> Listener.Apply(s, l).pc == Listener.Returned
  {
  }

  lemma {:induction false} RunHasHistory(s0: System, steps: seq<Step>)
    requires IsRun(s0, steps)
    ensures History(Exec(s0, steps).value, steps)
  {
    if steps != [] {
      var front := steps[..|steps| - 1];
      RunHasHistory(s0, front);
      HistoryStep(Exec(s0, front).value, front, steps[|steps| - 1]);
      assert steps == front + [steps[|steps| - 1]];
    }
  }

  /** Every reachable state keeps hard cancelled => soft cancelled => all connections cancelled. */
  lemma TokenHierarchy(s0: System, steps: seq<Step>)
    requires IsRun(s0, steps)
    ensures var s := Exec(s0, steps).value.listener;
      && (s.hard ==> s.soft)
      && (s.soft ==> forall c :: c in s.connections ==> s.connections[c].token)
  {
    ListenerRuns(s0, steps);
    Listener.RunIsSafe(Projection(steps));
  }

  /** `run` returns only with the tracker closed and empty, hence with every socket ever accepted
      settled, and it returns FAILURE exactly when the soft token ended the first wait. */
  lemma ExitMeansSettled(s0: System, steps: seq<Step>)
    requires IsRun(s0, steps) && Exec(s0, steps).value.manager.pc.Exited?
    ensures var s := Exec(s0, steps).value;
      && s.manager.closed && TrackerEmpty(s)
      && s.listener.finished + s.listener.failed + s.listener.aborted == Listener.Numbers(s.listener.taken)
      && (s.manager.pc.code == Failure <==> Manage(EndFirst(SoftToken)) in steps)
  {
    RunHasHistory(s0, steps);
    ListenerRuns(s0, steps);
    Listener.RunIsSafe(Projection(steps));
  }

  /** FAILURE is never reported unless some other task dropped its guard on the soft token. */
  lemma {:induction false} FailureNeedsDroppedGuard(s0: System, steps: seq<Step>)
    requires IsRun(s0, steps)
    ensures var s := Exec(s0, steps).value;
      && (s.listener.soft <==> DropGuard in steps || Manage(CancelSoftToken) in steps)
      && (Manage(EndFirst(SoftToken)) in steps ==> DropGuard in steps)
      && (Manage(CancelSoftToken) in steps ==> StoppingPc(s.manager.pc))
  {
    if steps != [] {
      hide Apply, Enabled;
      var front, last := steps[..|steps| - 1], steps[|steps| - 1];
      FailureNeedsDroppedGuard(s0, front);
      GuardStep(Exec(s0, front).value, last);
      SoftComesFromOutside(s0, front, last);
      SoftIsCancelled(Exec(s0, front).value, last);
      assert steps == front + [last];
    }
  }

  lemma SoftIsCancelled(s: System, step: Step)
    requires Enabled(s, step)
    ensures s.listener.soft || step == DropGuard || step == Manage(CancelSoftToken) ==> Apply(s, step).listener.soft
  {
    if step.Listen? {
      Listener.OneWayStep(s.listener, step.listen);
    }
  }

  lemma GuardStep(s: System, step: Step)
    requires Enabled(s, step)
    ensures StoppingPc(s.manager.pc) ==> StoppingPc(Apply(s, step).manager.pc)
    ensures step == Manage(CancelSoftToken) ==> StoppingPc(Apply(s, step).manager.pc)
    ensures step == Manage(EndFirst(SoftToken)) ==> s.listener.soft && !StoppingPc(s.manager.pc)
  {
  }

  predicate Cancels(step: Step) {
    step == DropGuard || step == Manage(CancelSoftToken) || step == Manage(CancelHardToken)
  }

  /** The listener itself never cancels the soft token before it is cancelled. */
  lemma SoftComesFromOutside(s0: System, front: seq<Step>, step: Step)
    requires IsRun(s0, front) && Enabled(Exec(s0, front).value, step)
    ensures Apply(Exec(s0, front).value, step).listener.soft ==> Exec(s0, front).value.listener.soft || Cancels(step)
    ensures step == Manage(CancelHardToken) ==> Exec(s0, front).value.listener.soft
  {
    hide Exec, Listener.Exec, Listener.Accounted, Listener.SpawnedOnce, Listener.TokensNested, Listener.Controlled;
    ListenerRuns(s0, front);
    Listener.RunIsSafe(Projection(front));
    RunHasHistory(s0, front);
    SoftStep(Exec(s0, front).value, step);
  }

  lemma SoftStep(s: System, step: Step)
    requires Enabled(s, step) && Listener.Controlled(s.listener)
    ensures Apply(s, step).listener.soft ==> s.listener.soft || Cancels(step)
  {
    ListenerEffect(s, step);
    hide Apply;
    if step.Listen? {
      ListenerKeepsSoft(s.listener, step.listen);
    }
  }

  lemma ListenerKeepsSoft(s: Listener.State, l: Listener.Step)
    requires Listener.Controlled(s) && Listener.Enabled(s, l) && l != Listener.CancelSoft && l != Listener.CancelHard
    ensures Listener.Apply(s, l).soft ==> s.soft
  {
  }

  lemma AbortsNeedHard(s0: System, steps: seq<Step>)
    requires IsRun(s0, steps)
    ensures Exec(s0, steps).value.listener.aborted != {} ==> HardPc(Exec(s0, steps).value.manager.pc)
  {
    ListenerRuns(s0, steps);
    Listener.RunIsSafe(Projection(steps));
    RunHasHistory(s0, steps);
  }

  /** If the second wait ended because the tracker ran empty, no socket was aborted, then or later:
      connections are cut only by a second signal or by the timeout. */
  lemma {:induction false} GracefulShutdownAbortsNothing(s0: System, steps: seq<Step>)
    requires IsRun(s0, steps) && Manage(EndSecond(TrackerDone)) in steps
    ensures Exec(s0, steps).value.listener.pc == Listener.Returned
    ensures Exec(s0, steps).value.listener.aborted == {}
  {
    var front := steps[..|steps| - 1];
    var last := steps[|steps| - 1];
    assert steps == front + [last];
    if Manage(EndSecond(TrackerDone)) in front {
      GracefulShutdownAbortsNothing(s0, front);
    } else {
      AbortsNeedHard(s0, front);
    }
    ReturnedIsFinal(Exec(s0, front).value, last);
  }

  lemma ReturnedIsFinal(s: System, step: Step)
    requires Enabled(s, step) && s.listener.pc == Listener.Returned
    ensures Apply(s, step).listener.pc == Listener.Returned
    ensures Apply(s, step).listener.aborted == s.listener.aborted
  {
    ListenerEffect(s, step);
  }

  // ---------------------------------------------------------------- the manager itself

  /** What the first `select!` resolves to. */
  datatype Event = Ends(cause: First) | WatchdogTick | SighupReceived

  /** The steps of one iteration of the first wait. */
  function EventSteps(e: Event, watchdog: bool, handlers: nat): seq<ManagerStep> {
    match e
    case Ends(cause) => [EndFirst(cause)]
    case WatchdogTick => if watchdog then [Tick] else []
    case SighupReceived => [Hup] + ReloadAll(handlers) + [ReloadDone]
  }

  function ReloadAll(handlers: nat): seq<ManagerStep> {
    if handlers == 0 then [] else ReloadAll(handlers - 1) + [Reload(handlers - 1)]
  }

  /** The steps of `run` up to the event that ends the first wait; what comes after it is not seen. */
  function FirstSteps(events: seq<Event>, watchdog: bool, handlers: nat): seq<ManagerStep> {
    if events == [] then [Start]
    else
      var front := events[..|events| - 1];
      FirstSteps(front, watchdog, handlers)
      + if Ended(front) then [] else EventSteps(events[|events| - 1], watchdog, handlers)
  }

  predicate Ended(events: seq<Event>) {
    exists i :: 0 <= i < |events| && events[i].Ends?
  }

  /** What ended the first wait. */
  function Cause(events: seq<Event>): (r: Option<First>)
    ensures r.Some? <==> Ended(events)
  {
    if events == [] then None
    else
      var front, last := events[..|events| - 1], events[|events| - 1];
      assert forall k :: 0 <= k < |front| ==> front[k] == events[k];
      if Cause(front).Some? then Cause(front) else if last.Ends? then Some(last.cause) else None
  }

  function Script(events: seq<Event>, second: Second, watchdog: bool, handlers: nat): seq<ManagerStep> {
    FirstSteps(events, watchdog, handlers)
    + if Ended(events) then [CancelSoftToken, CloseTracker, EndSecond(second), CancelHardToken, Return] else []
  }

  /** The handlers run by a sequence of steps, in order. */
  function HandlerRuns(steps: seq<ManagerStep>): seq<nat> {
    if steps == [] then []
    else
      var last := steps[|steps| - 1];
      HandlerRuns(steps[..|steps| - 1]) + if last.Reload? then [last.handler] else []
  }

  /** The manager's state after a sequence of its own steps. */
  function Follow(m: Manager, steps: seq<ManagerStep>): Option<Manager> {
    if steps == [] then Some(m)
    else
      match Follow(m, steps[..|steps| - 1])
      case None => None
      case Some(m') => if CanManage(m', steps[|steps| - 1]) then Some(Managed(m', steps[|steps| - 1])) else None
  }

  /** One more step, and what it adds to the record. */
  lemma Follows(m0: Manager, steps: seq<ManagerStep>, m: Manager, step: ManagerStep)
    requires Follow(m0, steps) == Some(m) && CanManage(m, step)
    ensures Follow(m0, steps + [step]) == Some(Managed(m, step))
    ensures step.Reload? ==> HandlerRuns(steps + [step]) == HandlerRuns(steps) + [step.handler]
    ensures !step.Reload? ==> HandlerRuns(steps + [step]) == HandlerRuns(steps)
  {
    assert (steps + [step])[..|steps|] == steps;
  }

  function ManagerProjection(steps: seq<Step>): seq<ManagerStep> {
    if steps == [] then []
    else
      var last := steps[|steps| - 1];
      ManagerProjection(steps[..|steps| - 1]) + if last.Manage? then [last.manage] else []
  }

  /** Inside the system the manager takes steps that it may take on its own, as `Run` below does. */
  lemma {:induction false} ManagerRuns(s0: System, steps: seq<Step>)
    requires IsRun(s0, steps)
    ensures Follow(s0.manager, ManagerProjection(steps)) == Some(Exec(s0, steps).value.manager)
  {
    if steps != [] {
      var front := steps[..|steps| - 1];
      var last := steps[|steps| - 1];
      ManagerRuns(s0, front);
      if last.Manage? {
        Follows(s0.manager, ManagerProjection(front), Exec(s0, front).value.manager, last.manage);
        assert ManagerProjection(steps) == ManagerProjection(front) + [last.manage];
      } else {
        assert ManagerProjection(steps) == ManagerProjection(front);
      }
    }
  }

  // What a run comes to, told from the events alone.

  /** The events handled by the first wait: those before the one that ends it. */
  function Waited(events: seq<Event>): (r: seq<Event>)
    ensures |r| <= |events| && r == events[..|r|]
    ensures forall i :: 0 <= i < |r| ==> !r[i].Ends?
    ensures |r| < |events| ==> events[|r|].Ends?
  {
    if events == [] || events[0].Ends? then [] else [events[0]] + Waited(events[1..])
  }

  /** There is one such place. */
  lemma WaitedIs(events: seq<Event>, k: nat)
    requires FirstEnd(events, k)
    ensures Waited(events) == events[..k]
  {
    var n := |Waited(events)|;
    assert forall i :: 0 <= i < n ==> events[i] == Waited(events)[i];
    SameEnd(events, n, k);
  }

  predicate FirstEnd(events: seq<Event>, k: nat) {
    k <= |events| && (forall i :: 0 <= i < k ==> !events[i].Ends?) && (k < |events| ==> events[k].Ends?)
  }

  lemma SameEnd(events: seq<Event>, n: nat, k: nat)
    requires FirstEnd(events, n) && FirstEnd(events, k)
    ensures n == k
  {
  }

  /** What the service manager is told of them: a sign of life per tick of the watchdog, if there is
      one, and per SIGHUP that a reload begins and that it is over. */
  function Announced(events: seq<Event>, watchdog: bool): seq<Notification> {
    if events == [] then []
    else
      Announced(events[..|events| - 1], watchdog)
      + (match events[|events| - 1]
         case Ends(_) => []
         case WatchdogTick => if watchdog then [Watchdog] else []
         case SighupReceived => [Notification.Reloading, Ready])
  }

  lemma AnnouncedSnoc(events: seq<Event>, i: nat, watchdog: bool)
    requires i < |events|
    ensures events[i].WatchdogTick? ==>
      Announced(events[..i + 1], watchdog) == Announced(events[..i], watchdog) + if watchdog then [Watchdog] else []
    ensures events[i].SighupReceived? ==>
      Announced(events[..i + 1], watchdog) == Announced(events[..i], watchdog) + [Notification.Reloading, Ready]
    ensures multiset(events[..i + 1]) == multiset(events[..i]) + multiset{events[i]}
  {
    assert events[..i + 1][..i] == events[..i];
    assert events[..i + 1] == events[..i] + [events[i]];
  }

  /** Each of the first `n` handlers has run `times` more than before, and no other. */
  ghost predicate RanMore(before: seq<nat>, after: seq<nat>, n: nat, times: nat) {
    before <= after && forall h: nat :: multiset(after)[h] == multiset(before)[h] + if h < n then times else 0
  }

  /** What was said and run since `n0` and `r0` is what the first `k` events ask for, and the next one ended
      the wait if it is over. */
  ghost predicate Handled(events: seq<Event>, k: nat, ended: bool, watchdog: bool, handlers: nat,
                          n0: seq<Notification>, n: seq<Notification>, r0: seq<nat>, r: seq<nat>)
  {
    && k <= |events| && (forall j :: 0 <= j < k ==> !events[j].Ends?) && (ended ==> k < |events| && events[k].Ends?)
    && n == n0 + Announced(events[..k], watchdog) + (if ended then [Stopping] else [])
    && RanMore(r0, r, handlers, multiset(events[..k])[SighupReceived])
  }

  lemma NothingHandled(events: seq<Event>, watchdog: bool, handlers: nat, n: seq<Notification>, r: seq<nat>)
    ensures Handled(events, 0, false, watchdog, handlers, n, n, r, r)
  {
    assert Announced(events[..0], watchdog) == [] && multiset(events[..0])[SighupReceived] == 0;
    assert n + [] + [] == n;
  }

  lemma HandledStep(events: seq<Event>, k: nat, watchdog: bool, handlers: nat,
                    n0: seq<Notification>, n: seq<Notification>, r0: seq<nat>, r: seq<nat>,
                    n': seq<Notification>, r': seq<nat>)
    requires k < |events| && Handled(events, k, false, watchdog, handlers, n0, n, r0, r)
    requires events[k].Ends? ==> n' == n + [Stopping]
    requires events[k].WatchdogTick? ==> n' == n + if watchdog then [Watchdog] else []
    requires events[k].SighupReceived? ==> n' == n + [Notification.Reloading, Ready]
    requires RanMore(r, r', handlers, if events[k].SighupReceived? then 1 else 0)
    ensures if events[k].Ends? then Handled(events, k, true, watchdog, handlers, n0, n', r0, r')
            else Handled(events, k + 1, false, watchdog, handlers, n0, n', r0, r')
  {
    hide Announced;
    AnnouncedSnoc(events, k, watchdog);
    var more := n0 + Announced(events[..k], watchdog);
    assert n == more + [] == more;
    assert n0 + Announced(events[..k + 1], watchdog) + [] == n0 + Announced(events[..k + 1], watchdog);
    RanBoth(r0, r, r', handlers, multiset(events[..k])[SighupReceived], if events[k].SighupReceived? then 1 else 0);
  }

  lemma RanBoth(a: seq<nat>, b: seq<nat>, c: seq<nat>, n: nat, s: nat, t: nat)
    requires RanMore(a, b, n, s) && RanMore(b, c, n, t)
    ensures RanMore(a, c, n, s + t)
  {
  }

  class LifecycleManager {
    var hardShutdownToken: bool
    var softShutdownToken: bool
    var trackerClosed: bool
    var watchdogEnabled: bool
    var reloadHandlers: nat
    var reloads: seq<nat>
    var notifications: seq<Notification>

    constructor (watchdog: bool)
      ensures !hardShutdownToken && !softShutdownToken && !trackerClosed && watchdogEnabled == watchdog
      ensures reloadHandlers == 0 && reloads == [] && notifications == []
    {
      hardShutdownToken, softShutdownToken, trackerClosed := false, false, false;
      watchdogEnabled, reloadHandlers, reloads, notifications := watchdog, 0, [], [];
    }

    method RegisterReloadable()
      modifies this`reloadHandlers
      ensures reloadHandlers == old(reloadHandlers) + 1
    {
      reloadHandlers := reloadHandlers + 1;
    }

    ghost function Snapshot(pc: Pc): Manager
      reads this
    {
      Manager(pc, watchdogEnabled, reloadHandlers, trackerClosed, notifications)
    }

    /** The manager has done exactly these steps, and its tokens and handlers show it. */
    ghost predicate Did(m0: Manager, log: seq<nat>, steps: seq<ManagerStep>, pc: Pc)
      reads this
    {
      && Follow(m0, steps) == Some(Snapshot(pc))
      && reloads == log + HandlerRuns(steps)
      && (hardShutdownToken <==> HardPc(pc))
      && (StoppingPc(pc) && !pc.CancellingSoft? ==> softShutdownToken)
    }

    /** A SIGHUP: announce, run every handler once, announce again. */
    method Reload(ghost m0: Manager, ghost log: seq<nat>, ghost before: seq<ManagerStep>)
      returns (ghost steps: seq<ManagerStep>)
      requires Did(m0, log, before, FirstWait)
      modifies this`notifications, this`reloads
      ensures steps == before + EventSteps(SighupReceived, watchdogEnabled, reloadHandlers)
      ensures Did(m0, log, steps, FirstWait)
      ensures notifications == old(notifications) + [Notification.Reloading, Ready]
      ensures RanMore(old(reloads), reloads, reloadHandlers, 1)
    {
      hide Follow, HandlerRuns;
      Follows(m0, before, Snapshot(FirstWait), Hup);
      steps := before + [Hup];
      notifications := notifications + [Notification.Reloading];
      steps := RunHandlers(m0, log, steps);
      Follows(m0, steps, Snapshot(ReloadingHandlers(Listener.Numbers(reloadHandlers))), ReloadDone);
      steps := steps + [ReloadDone];
      notifications := notifications + [Ready];
    }

    method RunHandlers(ghost m0: Manager, ghost log: seq<nat>, ghost before: seq<ManagerStep>)
      returns (ghost steps: seq<ManagerStep>)
      requires Did(m0, log, before, ReloadingHandlers({}))
      modifies this`reloads
      ensures steps == before + ReloadAll(reloadHandlers)
      ensures Did(m0, log, steps, ReloadingHandlers(Listener.Numbers(reloadHandlers)))
      ensures RanMore(old(reloads), reloads, reloadHandlers, 1)
    {
      hide Follow, HandlerRuns;
      steps := before;
      var h := 0;
      while h < reloadHandlers
        invariant 0 <= h <= reloadHandlers
        invariant steps == before + ReloadAll(h)
        invariant Did(m0, log, steps, ReloadingHandlers(Listener.Numbers(h)))
        invariant RanMore(old(reloads), reloads, h, 1)
      {
        Follows(m0, steps, Snapshot(ReloadingHandlers(Listener.Numbers(h))), ManagerStep.Reload(h));
        steps := steps + [ManagerStep.Reload(h)];
        reloads := reloads + [h];
        h := h + 1;
      }
    }

    method Begin(ghost m0: Manager, ghost log: seq<nat>) returns (ghost steps: seq<ManagerStep>)
      requires !hardShutdownToken && m0 == Snapshot(Starting) && log == reloads
      modifies this`notifications
      ensures steps == [Start] && Did(m0, log, steps, FirstWait) && notifications == old(notifications) + [Ready]
    {
      Follows(m0, [], m0, Start);
      notifications := notifications + [Ready];
      steps := [] + [Start];
    }

    /** One iteration of the first wait. */
    method Handle(event: Event, ghost m0: Manager, ghost log: seq<nat>, ghost before: seq<ManagerStep>)
      returns (ended: bool, likelyCrashed: bool, ghost steps: seq<ManagerStep>)
      requires Did(m0, log, before, FirstWait)
      modifies this`notifications, this`reloads
      ensures ended <==> event.Ends?
      ensures ended ==> (likelyCrashed <==> event.cause == SoftToken)
      ensures steps == before + EventSteps(event, watchdogEnabled, reloadHandlers)
      ensures Did(m0, log, steps, if ended then CancellingSoft(likelyCrashed) else FirstWait)
      ensures event.Ends? ==> notifications == old(notifications) + [Stopping]
      ensures event.WatchdogTick? ==>
        notifications == old(notifications) + if watchdogEnabled then [Watchdog] else []
      ensures event.SighupReceived? ==> notifications == old(notifications) + [Notification.Reloading, Ready]
      ensures RanMore(old(reloads), reloads, reloadHandlers, if event.SighupReceived? then 1 else 0)
    {
      hide Follow, HandlerRuns;
      ended, likelyCrashed, steps := false, false, before;
      match event {
        case Ends(cause) =>
          Follows(m0, steps, Snapshot(FirstWait), EndFirst(cause));
          ended, likelyCrashed := true, cause == SoftToken;
          notifications := notifications + [Stopping];
          steps := steps + [EndFirst(cause)];
        case WatchdogTick =>
          if watchdogEnabled {
            Follows(m0, steps, Snapshot(FirstWait), Tick);
            notifications := notifications + [Watchdog];
            steps := steps + [Tick];
          }
        case SighupReceived =>
          steps := Reload(m0, log, steps);
      }
    }

    /** The loop around the first `select!`. */
    method WaitForFirst(events: seq<Event>, ghost m0: Manager, ghost log: seq<nat>, ghost before: seq<ManagerStep>)
      returns (ended: bool, likelyCrashed: bool, ghost steps: seq<ManagerStep>)
      requires Did(m0, log, before, FirstWait) && before == [Start]
      modifies this`notifications, this`reloads
      ensures ended <==> Ended(events)
      ensures ended ==> (likelyCrashed <==> Cause(events) == Some(SoftToken))
      ensures steps == FirstSteps(events, watchdogEnabled, reloadHandlers)
      ensures Did(m0, log, steps, if ended then CancellingSoft(likelyCrashed) else FirstWait)
      ensures ended <==> |Waited(events)| < |events|
      ensures ended ==> (likelyCrashed <==> events[|Waited(events)|].cause == SoftToken)
      ensures notifications
           == old(notifications) + Announced(Waited(events), watchdogEnabled) + if ended then [Stopping] else []
      ensures RanMore(old(reloads), reloads, reloadHandlers, multiset(Waited(events))[SighupReceived])
    {
      hide Follow, HandlerRuns, FirstSteps, Ended, EventSteps, Did, Cause, Announced, RanMore, Handled;
      FirstStepsEmpty(events, watchdogEnabled, reloadHandlers);
      NothingHandled(events, watchdogEnabled, reloadHandlers, notifications, reloads);
      ended, likelyCrashed, steps := false, false, before;
      var i := 0;
      ghost var k := 0;
      while i < |events| && !ended
        invariant 0 <= i <= |events|
        invariant ended <==> Ended(events[..i])
        invariant ended ==> (likelyCrashed <==> Cause(events[..i]) == Some(SoftToken))
        invariant steps == FirstSteps(events[..i], watchdogEnabled, reloadHandlers)
        invariant Did(m0, log, steps, if ended then CancellingSoft(likelyCrashed) else FirstWait)
        invariant k == (if ended then i - 1 else i) && 0 <= k
        invariant ended ==> events[k].Ends? && (likelyCrashed <==> events[k].cause == SoftToken)
        invariant Handled(events, k, ended, watchdogEnabled, reloadHandlers, old(notifications), notifications,
                          old(reloads), reloads)
        decreases |events| - i
      {
        ghost var n, r := notifications, reloads;
        FirstStepsGrow(events, i, watchdogEnabled, reloadHandlers);
        ended, likelyCrashed, steps := Handle(events[i], m0, log, steps);
        HandledStep(events, k, watchdogEnabled, reloadHandlers, old(notifications), n, old(reloads), r,
                    notifications, reloads);
        i := i + 1;
        k := if ended then i - 1 else i;
      }
      EndedStays(events, i, watchdogEnabled, reloadHandlers);
      AllHandled(events, k, ended, watchdogEnabled, reloadHandlers, old(notifications), notifications,
                 old(reloads), reloads);
    }

    /** `run`: returns the exit code once something ended the first wait. The steps taken are those
        of `Script`, and they are steps the manager may take. */
    method Run(events: seq<Event>, second: Second) returns (exit: Option<ExitCode>, ghost steps: seq<ManagerStep>)
      requires !hardShutdownToken && !trackerClosed && notifications == []
      modifies this`notifications, this`reloads, this`softShutdownToken, this`hardShutdownToken, this`trackerClosed
      ensures steps == Script(events, second, watchdogEnabled, reloadHandlers)
      ensures Did(old(Snapshot(Starting)), old(reloads), steps, if exit.Some? then Exited(exit.value) else FirstWait)
      ensures var n := |Waited(events)|;
        exit == if n == |events| then None else Some(if events[n].cause == SoftToken then Failure else Success)
      ensures notifications
           == [Ready] + Announced(Waited(events), watchdogEnabled) + if exit.Some? then [Stopping] else []
      ensures RanMore(old(reloads), reloads, reloadHandlers, multiset(Waited(events))[SighupReceived])
      ensures if exit.Some? then softShutdownToken && hardShutdownToken && trackerClosed
              else softShutdownToken == old(softShutdownToken) && !hardShutdownToken && !trackerClosed
    {
      hide Follow, HandlerRuns, FirstSteps, EventSteps, Did, Cause, Announced, RanMore, Waited;
      ghost var m0, log := Snapshot(Starting), reloads;
      exit := None;
      steps := Begin(m0, log);
      var ended, likelyCrashed;
      ended, likelyCrashed, steps := WaitForFirst(events, m0, log, steps);
      if ended {
        exit, steps := Shutdown(second, likelyCrashed, m0, log, steps);
      }
    }

    /** Cancel the soft token, close the tracker, wait, cancel the hard token, wait for the tracker. */
    method Shutdown(second: Second, likelyCrashed: bool, ghost m0: Manager, ghost log: seq<nat>,
                    ghost before: seq<ManagerStep>)
      returns (exit: Option<ExitCode>, ghost steps: seq<ManagerStep>)
      requires Did(m0, log, before, CancellingSoft(likelyCrashed))
      modifies this`softShutdownToken, this`hardShutdownToken, this`trackerClosed
      ensures exit == Some(if likelyCrashed then Failure else Success)
      ensures steps == before + [CancelSoftToken, CloseTracker, EndSecond(second), CancelHardToken, Return]
      ensures Did(m0, log, steps, Exited(exit.value))
      ensures softShutdownToken && hardShutdownToken && trackerClosed
    {
      hide Follow, HandlerRuns;
      Follows(m0, before, Snapshot(CancellingSoft(likelyCrashed)), CancelSoftToken);
      softShutdownToken := true;
      steps := before + [CancelSoftToken];
      Follows(m0, steps, Snapshot(ClosingTracker(likelyCrashed)), CloseTracker);
      trackerClosed := true;
      steps := steps + [CloseTracker];
      Follows(m0, steps, Snapshot(SecondWait(likelyCrashed)), EndSecond(second));
      steps := steps + [EndSecond(second)];
      Follows(m0, steps, Snapshot(CancellingHard(likelyCrashed)), CancelHardToken);
      hardShutdownToken := true;
      steps := steps + [CancelHardToken];
      Follows(m0, steps, Snapshot(LastWait(likelyCrashed)), Return);
      steps := steps + [Return];
      exit := Some(if likelyCrashed then Failure else Success);
    }
  }

  lemma AllHandled(events: seq<Event>, k: nat, ended: bool, watchdog: bool, handlers: nat,
                   n0: seq<Notification>, n: seq<Notification>, r0: seq<nat>, r: seq<nat>)
    requires Handled(events, k, ended, watchdog, handlers, n0, n, r0, r) && (ended || k == |events|)
    ensures |Waited(events)| == k && (ended <==> k < |events|)
    ensures n == n0 + Announced(Waited(events), watchdog) + if ended then [Stopping] else []
    ensures RanMore(r0, r, handlers, multiset(Waited(events))[SighupReceived])
  {
    hide Announced, RanMore;
    WaitedIs(events, k);
  }

  lemma FirstStepsEmpty(events: seq<Event>, watchdog: bool, handlers: nat)
    ensures FirstSteps(events[..0], watchdog, handlers) == [Start] && !Ended(events[..0])
  {
  }

  lemma FirstStepsGrow(events: seq<Event>, i: nat, watchdog: bool, handlers: nat)
    requires i < |events| && !Ended(events[..i])
    ensures Ended(events[..i + 1]) <==> events[i].Ends?
    ensures events[i].Ends? ==> Cause(events[..i + 1]) == Some(events[i].cause)
    ensures FirstSteps(events[..i + 1], watchdog, handlers)
         == FirstSteps(events[..i], watchdog, handlers) + EventSteps(events[i], watchdog, handlers)
  {
    assert events[..i + 1][..i] == events[..i];
    assert forall k :: 0 <= k < i ==> events[..i + 1][k] == events[..i][k];
  }

  lemma {:induction false} EndedStays(events: seq<Event>, i: nat, watchdog: bool, handlers: nat)
    requires i <= |events| && (Ended(events[..i]) || i == |events|)
    ensures Ended(events) <==> Ended(events[..i])
    ensures Cause(events) == Cause(events[..i])
    ensures FirstSteps(events, watchdog, handlers) == FirstSteps(events[..i], watchdog, handlers)
  {
    if i < |events| {
      var front := events[..|events| - 1];
      assert front[..i] == events[..i];
      EndedStays(front, i, watchdog, handlers);
      assert forall k :: 0 <= k < |front| ==> front[k] == events[k];
    } else {
      assert events[..i] == events;
    }
  }
}
