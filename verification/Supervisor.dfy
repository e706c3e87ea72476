/** The lifecycle of a supervised host, section by section. */
module Supervisor {
  // Every mutex-protected section is one step.

  import opened Options

  datatype Status = Starting | Running | Paused | Stopped | Crashed | Restarting

  /** A live host's handle: the run it belongs to, and whether a conductor hangs on it. */
  datatype Handle = Handle(run: nat, conductor: bool)

  /** The fields behind a host's mutex; a cancel function is named by the run it cancels. */
  datatype Host = Host(
    status: Status,
    failed: bool,
    handle: Option<Handle>,
    cancel: Option<nat>,
    stopReq: bool,
    restartReq: bool,
    alive: bool,
    restarts: nat)

  // ----- the critical sections, as functions on the fields -----

  function NewHost(): Host {
    Host(Starting, false, None, None, false, false, true, 0)
  }

  /** Top of the supervise loop: stop, or set up run `run`. */
  function TopSection(h: Host, run: nat): Host {
    if h.stopReq then h.(status := Stopped)
    else h.(cancel := Some(run), restartReq := false, status := Starting, handle := None, failed := false)
  }

  function ReadySection(h: Host, run: nat, conductor: bool): Host {
    h.(handle := Some(Handle(run, conductor)), status := if h.status.Starting? then Running else h.status)
  }

  /** After the run has returned. */
  function ExitSection(h: Host, err: bool): Host {
    h.(restartReq := false, handle := None, failed := h.failed || err)
  }

  function StopSection(h: Host): Host {
    h.(stopReq := true)
  }

  /** A live supervisor is told to bounce; a dead host is claimed for a new supervisor. */
  function RestartSection(h: Host): Host {
    if h.alive then h.(stopReq := false, restartReq := true, status := Restarting)
    else h.(stopReq := false, alive := true, restartReq := false, status := Starting, failed := false)
  }

  /** The claimed host's password cannot be resolved. */
  function AbandonSection(h: Host): Host {
    h.(alive := false, status := Crashed, failed := true)
  }

  predicate Steerable(h: Host) {
    !h.stopReq && !h.status.Stopped? && !h.status.Crashed? && h.handle.Some? && h.handle.value.conductor
  }

  function PauseSection(h: Host): Host {
    if Steerable(h) then h.(status := Paused) else h
  }

  function ResumeSection(h: Host): Host {
    if Steerable(h) then h.(status := Running) else h
  }

  /** The same fields in place, one method per critical section. */
  class ManagedHost {
    var status: Status
    var failed: bool
    var handle: Option<Handle>
    var cancel: Option<nat>
    var stopReq: bool
    var restartReq: bool
    var alive: bool
    var restarts: nat

    ghost function View(): Host
      reads this
    {
      Host(status, failed, handle, cancel, stopReq, restartReq, alive, restarts)
    }

    constructor ()
      ensures View() == NewHost()
    {
      status, failed, handle, cancel := Starting, false, None, None;
      stopReq, restartReq, alive, restarts := false, false, true, 0;
    }

    method SetStatus(s: Status)
      modifies this
      ensures View() == old(View()).(status := s)
    {
      status := s;
    }

    method Top(run: nat) returns (launched: bool)
      modifies this
      ensures View() == TopSection(old(View()), run) && launched == !old(stopReq)
    {
      if stopReq {
        status := Stopped;
        return false;
      }
      cancel := Some(run);
      restartReq := false;
      status := Starting;
      handle := None;
      failed := false;
      launched := true;
    }

    method OnReady(run: nat, conductor: bool)
      modifies this
      ensures View() == ReadySection(old(View()), run, conductor)
    {
      handle := Some(Handle(run, conductor));
      if status == Starting {
        status := Running;
      }
    }

    method AfterRun(err: bool) returns (stop: bool, restart: bool)
      modifies this
      ensures View() == ExitSection(old(View()), err) && stop == old(stopReq) && restart == old(restartReq)
    {
      stop, restart := stopReq, restartReq;
      restartReq := false;
      handle := None;
      if err {
        failed := true;
      }
    }

    method Stop() returns (toCancel: Option<nat>)
      modifies this
      ensures View() == StopSection(old(View())) && toCancel == cancel
    {
      stopReq := true;
      toCancel := cancel;
    }

    /** Reports whether the caller must spawn a supervisor, and else what it must cancel. */
    method Restart() returns (spawn: bool, toCancel: Option<nat>)
      modifies this
      ensures View() == RestartSection(old(View())) && spawn == !old(alive)
      ensures toCancel == if old(alive) then cancel else None
    {
      stopReq := false;
      if alive {
        restartReq := true;
        status := Restarting;
        return false, cancel;
      }
      alive := true;
      restartReq := false;
      status := Starting;
      failed := false;
      return true, None;
    }

    method Abandon()
      modifies this
      ensures View() == AbandonSection(old(View()))
    {
      alive := false;
      status := Crashed;
      failed := true;
    }

    method Pause() returns (ok: bool)
      modifies this
      ensures View() == PauseSection(old(View())) && ok == Steerable(old(View()))
    {
      if stopReq || status == Stopped || status == Crashed || handle.None? || !handle.value.conductor {
        return false;
      }
      status := Paused;
      ok := true;
    }

    method Resume() returns (ok: bool)
      modifies this
      ensures View() == ResumeSection(old(View())) && ok == Steerable(old(View()))
    {
      if stopReq || status == Stopped || status == Crashed || handle.None? || !handle.value.conductor {
        return false;
      }
      status := Running;
      ok := true;
    }

    method CountRestart()
      modifies this
      ensures View() == old(View()).(restarts := old(restarts) + 1)
    {
      restarts := restarts + 1;
    }

    method Leave()
      modifies this
      ensures View() == old(View()).(alive := false)
    {
      alive := false;
    }
  }

  // ----- the whole machine of one host -----

  /** Where a supervisor goroutine is between its critical sections. */
  datatype Pc =
    | AtTop
    | InRun(run: nat)
    | Returned(err: bool)
    | Deciding(stop: bool, restart: bool, err: bool)
    | Closing(final: Status)
    | ToBackoff
    | InBackoff
    | Counting
    | Leaving

  /** All goroutines concerned with one host: its supervisors, calls that have claimed it but not
      spawned yet, cancel functions fetched but not called, and runs cancelled. */
  datatype Sys = Sys(
    host: Host,
    sups: map<nat, Pc>,
    startClaims: nat,
    restartClaims: nat,
    pending: multiset<nat>,
    cancelled: set<nat>,
    launched: nat,
    parentDone: bool,
    restartPolicy: bool)

  datatype Action =
    | Top(id: nat)
    | Ready(id: nat, conductor: bool)
    | Return(id: nat, err: bool)
    | Exit(id: nat)
    | Decide(id: nat)
    | SetFinal(id: nat)
    | SetRestarting(id: nat)
    | BackoffOver(id: nat)
    | BackoffCancelled(id: nat)
    | Count(id: nat)
    | Leave(id: nat)
    | Stop
    | Restart
    | Cancel(run: nat)
    | SpawnStarted(id: nat)
    | SpawnRestarted(id: nat)
    | Abandon
    | Pause
    | Resume
    | ParentCancel

  predicate At(s: Sys, id: nat, pc: Pc) {
    id in s.sups && s.sups[id] == pc
  }

  predicate Enabled(s: Sys, a: Action) {
    match a
    case Top(id) => At(s, id, AtTop)
    case Ready(id, _) => id in s.sups && s.sups[id].InRun?
    case Return(id, _) => id in s.sups && s.sups[id].InRun?
    case Exit(id) => id in s.sups && s.sups[id].Returned?
    case Decide(id) => id in s.sups && s.sups[id].Deciding?
    case SetFinal(id) => id in s.sups && s.sups[id].Closing?
    case SetRestarting(id) => At(s, id, ToBackoff)
    case BackoffOver(id) => At(s, id, InBackoff)
    case BackoffCancelled(id) => At(s, id, InBackoff) && s.parentDone
    case Count(id) => At(s, id, Counting)
    case Leave(id) => At(s, id, Leaving)
    case Cancel(run) => run in s.pending
    case SpawnStarted(id) => s.startClaims > 0 && id !in s.sups
    case SpawnRestarted(id) => s.restartClaims > 0 && id !in s.sups
    case Abandon => s.restartClaims > 0
    case Stop | Restart | Pause | Resume | ParentCancel => true
  }

  /** The switch after a run: what the supervisor does next. */
  function Verdict(s: Sys, d: Pc): Pc
    requires d.Deciding?
  {
    if d.stop || s.parentDone then Closing(Stopped)
    else if d.restart then AtTop
    else if d.err && s.restartPolicy then ToBackoff
    else if d.err then Closing(Crashed)
    else Closing(Stopped)
  }

  function Fetch(pending: multiset<nat>, cancel: Option<nat>): multiset<nat> {
    if cancel.Some? then pending + multiset{cancel.value} else pending
  }

  function Step(s: Sys, a: Action): Sys
    requires Enabled(s, a)
  {
    match a
    case Top(id) =>
      if s.host.stopReq then s.(host := TopSection(s.host, s.launched), sups := s.sups[id := Leaving])
      else s.(host := TopSection(s.host, s.launched), sups := s.sups[id := InRun(s.launched)],
        launched := s.launched + 1)
    case Ready(id, conductor) => s.(host := ReadySection(s.host, s.sups[id].run, conductor))
    case Return(id, err) => s.(sups := s.sups[id := Returned(err)], cancelled := s.cancelled + {s.sups[id].run})
    case Exit(id) =>
      s.(host := ExitSection(s.host, s.sups[id].err),
         sups := s.sups[id := Deciding(s.host.stopReq, s.host.restartReq, s.sups[id].err)])
    case Decide(id) => s.(sups := s.sups[id := Verdict(s, s.sups[id])])
    case SetFinal(id) => s.(host := s.host.(status := s.sups[id].final), sups := s.sups[id := Leaving])
    case SetRestarting(id) => s.(host := s.host.(status := Restarting), sups := s.sups[id := InBackoff])
    case BackoffOver(id) => s.(sups := s.sups[id := Counting])
    case BackoffCancelled(id) => s.(sups := s.sups[id := Closing(Stopped)])
    case Count(id) => s.(host := s.host.(restarts := s.host.restarts + 1), sups := s.sups[id := AtTop])
    case Leave(id) => s.(host := s.host.(alive := false), sups := s.sups - {id})
    case Stop => s.(host := StopSection(s.host), pending := Fetch(s.pending, s.host.cancel))
    case Restart =>
      if s.host.alive then s.(host := RestartSection(s.host), pending := Fetch(s.pending, s.host.cancel))
      else s.(host := RestartSection(s.host), restartClaims := s.restartClaims + 1)
    case Cancel(run) => s.(pending := s.pending - multiset{run}, cancelled := s.cancelled + {run})
    case SpawnStarted(id) => s.(startClaims := s.startClaims - 1, sups := s.sups[id := AtTop])
    case SpawnRestarted(id) => s.(restartClaims := s.restartClaims - 1, sups := s.sups[id := AtTop])
    case Abandon => s.(host := AbandonSection(s.host), restartClaims := s.restartClaims - 1)
    case Pause => s.(host := PauseSection(s.host))
    case Resume => s.(host := ResumeSection(s.host))
    case ParentCancel => s.(parentDone := true)
  }

  /** `Start` has put the host into the registry and is about to spawn its supervisor. */
  function Started(restartPolicy: bool, parentDone: bool): Sys {
    Sys(NewHost(), map[], 1, 0, multiset{}, {}, 0, parentDone, restartPolicy)
  }

  // ----- the inductive invariant -----

  /** Exactly one owner of an alive host, none of a dead one. */
  predicate OneOwner(s: Sys) {
    |s.sups| + s.startClaims + s.restartClaims == if s.host.alive then 1 else 0
  }

  predicate Going(st: Status) {
    st.Running? || st.Paused?
  }

  /** What a supervisor's place says about the fields. */
  predicate GoodPc(s: Sys, pc: Pc) {
    match pc
    case InRun(run) =>
      run < s.launched && s.host.cancel == Some(run) &&
      (s.host.stopReq ==> run in s.pending || run in s.cancelled)
    case Returned(_) => true
    case Closing(final) => s.host.handle.None? && (final.Stopped? || final.Crashed?)
    case Leaving => s.host.handle.None? && !Going(s.host.status)
    case InBackoff | Counting => s.host.handle.None? && s.host.status.Restarting?
    case _ => s.host.handle.None?
  }

  /** Nobody supervises the host yet, or any more. */
  predicate Unowned(s: Sys) {
    s.sups == map[] ==> s.host.handle.None? && !Going(s.host.status)
  }

  predicate Inv(s: Sys) {
    OneOwner(s) && (forall id :: id in s.sups ==> GoodPc(s, s.sups[id])) && Unowned(s)
  }

  lemma StartedInv(restartPolicy: bool, parentDone: bool)
    ensures Inv(Started(restartPolicy, parentDone))
  {
  }

  /** Moving a supervisor on, adding one, or removing one. */
  lemma Counts(m: map<nat, Pc>, id: nat, pc: Pc)
    ensures id in m ==> |m[id := pc]| == |m| && |m - {id}| == |m| - 1
    ensures id !in m ==> |m[id := pc]| == |m| + 1
  {
    if id in m {
      assert m[id := pc].Keys == m.Keys;
      assert (m - {id}).Keys == m.Keys - {id};
    } else {
      assert m[id := pc].Keys == m.Keys + {id};
    }
  }

  /** With one owner in all, a present supervisor is the only one. */
  lemma OnlyOne(s: Sys, id: nat)
    requires OneOwner(s) && id in s.sups
    ensures s.sups == map[id := s.sups[id]] && s.startClaims == 0 && s.restartClaims == 0 && s.host.alive
  {
    assert |s.sups.Keys| >= 1;
    assert |s.sups.Keys - {id}| == |s.sups.Keys| - 1;
    assert s.sups.Keys == {id};
  }

  /** A machine with one supervisor, in a good place. */
  lemma SingleInv(s: Sys, id: nat, pc: Pc)
    requires s.sups == map[id := pc] && s.startClaims == 0 && s.restartClaims == 0 && s.host.alive && GoodPc(s, pc)
    ensures Inv(s)
  {
    Counts(map[], id, pc);
    assert id in s.sups;
  }

  /** Steps of a supervisor goroutine. */
  predicate OfSupervisor(a: Action) {
    a.Top? || a.Ready? || a.Return? || a.Exit? || a.Decide? || a.SetFinal? || a.SetRestarting?
    || a.BackoffOver? || a.BackoffCancelled? || a.Count? || a.Leave?
  }

  lemma SupervisorStep(s: Sys, a: Action)
    requires Inv(s) && Enabled(s, a) && OfSupervisor(a)
    ensures Inv(Step(s, a))
  {
    var s', id := Step(s, a), a.id;
    OnlyOne(s, id);
    var pc := s.sups[id];
    assert GoodPc(s, pc);
    if a.Leave? {
      assert s'.sups == map[];
    } else {
      hide Inv, OneOwner;
      var pc' := s'.sups[id];
      assert s'.sups == map[id := pc'];
      SingleInv(s', id, pc');
    }
  }

  lemma SpawnStep(s: Sys, a: Action)
    requires Inv(s) && Enabled(s, a) && (a.SpawnStarted? || a.SpawnRestarted?)
    ensures Inv(Step(s, a))
  {
    assert s.sups == map[];
    hide Inv, OneOwner;
    SingleInv(Step(s, a), a.id, AtTop);
  }

  /** Sections of the control calls leave every supervisor where it is. */
  lemma CallStep(s: Sys, a: Action)
    requires Inv(s) && Enabled(s, a) && !OfSupervisor(a) && !a.SpawnStarted? && !a.SpawnRestarted?
    ensures Inv(Step(s, a))
  {
    var s' := Step(s, a);
    forall id | id in s'.sups ensures GoodPc(s', s'.sups[id]) {
      OnlyOne(s, id);
      assert GoodPc(s, s.sups[id]);
    }
  }

  /** Every step of every goroutine, in any order, keeps the invariant. */
  lemma StepKeepsInv(s: Sys, a: Action)
    requires Inv(s) && Enabled(s, a)
    ensures Inv(Step(s, a))
  {
    hide Inv, Step;
    if OfSupervisor(a) {
      SupervisorStep(s, a);
    } else if a.SpawnStarted? || a.SpawnRestarted? {
      SpawnStep(s, a);
    } else {
      CallStep(s, a);
    }
  }

  // ----- whole runs -----

  predicate IsRun(s: Sys, run: seq<Action>)
    decreases |run|
  {
    run == [] || (Enabled(s, run[0]) && IsRun(Step(s, run[0]), run[1..]))
  }

  function After(s: Sys, run: seq<Action>): Sys
    requires IsRun(s, run)
    decreases |run|
  {
    if run == [] then s else After(Step(s, run[0]), run[1..])
  }

  lemma {:induction false} RunKeepsInv(s: Sys, run: seq<Action>)
    requires Inv(s) && IsRun(s, run)
    ensures Inv(After(s, run))
    decreases |run|
  {
    hide Inv, Enabled, Step;
    if run != [] {
      StepKeepsInv(s, run[0]);
      RunKeepsInv(Step(s, run[0]), run[1..]);
    }
  }

  /** Supervisor safety: in every reachable state of a started host, supervisors plus claims are
      one if it is alive and none otherwise, and a host that is not alive has no handle and is
      neither running nor paused. */
  lemma SupervisorSafety(restartPolicy: bool, parentDone: bool, run: seq<Action>)
    requires IsRun(Started(restartPolicy, parentDone), run)
    ensures var s := After(Started(restartPolicy, parentDone), run);
            && |s.sups| + s.startClaims + s.restartClaims == (if s.host.alive then 1 else 0)
            && (!s.host.alive ==> s.host.handle.None? && !Going(s.host.status))
  {
    StartedInv(restartPolicy, parentDone);
    RunKeepsInv(Started(restartPolicy, parentDone), run);
    var s := After(Started(restartPolicy, parentDone), run);
    if !s.host.alive {
      assert s.sups == map[];
    }
  }

  /** No run is launched between a Stop's critical section and the next Restart's. */
  lemma {:induction false} StoppedStaysDown(s: Sys, run: seq<Action>)
    requires s.host.stopReq && IsRun(s, run) && Restart !in run
    ensures After(s, run).launched == s.launched && After(s, run).host.stopReq
    decreases |run|
  {
    if run != [] {
      assert run[0] in run && forall a :: a in run[1..] ==> a in run;
      StoppedStaysDown(Step(s, run[0]), run[1..]);
    }
  }

  lemma NothingLaunchedAfterStop(s: Sys, run: seq<Action>)
    requires IsRun(Step(s, Stop), run) && Restart !in run
    ensures After(Step(s, Stop), run).launched == s.launched
  {
    StoppedStaysDown(Step(s, Stop), run);
  }

  /** A cancel function once fetched is not lost: it is called, or still to be called. */
  lemma {:induction false} CancelNotLost(s: Sys, run: seq<Action>, r: nat)
    requires IsRun(s, run) && (r in s.pending || r in s.cancelled)
    ensures r in After(s, run).pending || r in After(s, run).cancelled
    decreases |run|
  {
    if run != [] {
      CancelNotLost(Step(s, run[0]), run[1..], r);
    }
  }

  /** Every run that is live at a Stop's critical section has its own cancel function fetched there, and is
      cancelled once the fetched ones have been called, whatever happens in between. */
  lemma StopCancelsLiveRun(s: Sys, id: nat, run: seq<Action>)
    requires Inv(s) && id in s.sups && s.sups[id].InRun?
    requires IsRun(Step(s, Stop), run) && After(Step(s, Stop), run).pending == multiset{}
    ensures s.host.cancel == Some(s.sups[id].run) && s.sups[id].run in Step(s, Stop).pending
    ensures s.sups[id].run in After(Step(s, Stop), run).cancelled
  {
    assert GoodPc(s, s.sups[id]);
    CancelNotLost(Step(s, Stop), run, s.sups[id].run);
  }

  // ----- when a Restart of an alive host is honoured -----

  /** The supervisor has passed the point where it could still launch, and is on its way out. */
  predicate Doomed(s: Sys, pc: Pc) {
    match pc
    case Closing(_) | Leaving => true
    case InRun(_) | Returned(_) => s.parentDone
    case Deciding(stop, restart, err) => stop || s.parentDone || !(restart || (err && s.restartPolicy))
    case _ => false
  }

  /** A doomed supervisor launches nothing more: the host ends without an owner, or is still on its
      way there; so a Restart that falls into this window is dropped. */
  lemma {:induction false} DoomedLeaves(s: Sys, id: nat, run: seq<Action>)
    requires Inv(s) && id in s.sups && Doomed(s, s.sups[id]) && IsRun(s, run)
    requires forall k :: 0 <= k < |run| && run[k] == Leave(id) ==> k == |run| - 1
    ensures var s' := After(s, run);
            && s'.launched == s.launched
            && if id in s'.sups then Doomed(s', s'.sups[id]) else !s'.host.alive
    decreases |run|
  {
    if run != [] {
      var a := run[0];
      OnlyOne(s, id);
      StepKeepsInv(s, a);
      assert run[0] == Leave(id) ==> |run| == 1;
      forall k | 0 <= k < |run[1..]| && run[1..][k] == Leave(id) ensures k == |run[1..]| - 1 {
        assert run[k + 1] == Leave(id);
      }
      if a != Leave(id) {
        hide Inv, IsRun;
        DoomedStep(s, id, a);
        DoomedLeaves(Step(s, a), id, run[1..]);
      } else {
        assert run[1..] == [];
      }
    }
  }

  lemma DoomedStep(s: Sys, id: nat, a: Action)
    requires Inv(s) && id in s.sups && Doomed(s, s.sups[id]) && Enabled(s, a) && a != Leave(id)
    ensures id in Step(s, a).sups && Doomed(Step(s, a), Step(s, a).sups[id]) && Step(s, a).launched == s.launched
  {
    OnlyOne(s, id);
  }

  /** The parent is done, and the back-off's select decides whether the supervisor launches once more. */
  predicate Selecting(s: Sys, pc: Pc) {
    (pc.ToBackoff? || pc.InBackoff?) && s.parentDone
  }

  /** The bounce is on its way: flagged, captured, or the supervisor is about to launch anyway. */
  predicate Bouncing(s: Sys, pc: Pc) {
    && !s.host.stopReq && !Doomed(s, pc) && !Selecting(s, pc)
    && (pc.InRun? || pc.Returned? ==> s.host.restartReq)
  }

  lemma BouncingStep(s: Sys, id: nat, a: Action)
    requires Inv(s) && id in s.sups && Bouncing(s, s.sups[id]) && Enabled(s, a) && a != Stop && a != ParentCancel
    ensures var s' := Step(s, a);
            id in s'.sups && (s'.launched == s.launched ==> Bouncing(s', s'.sups[id]))
  {
    OnlyOne(s, id);
  }

  /** A Restart that finds a supervisor not yet on its way out is honoured: without a later Stop or
      cancellation of the parent the supervisor cannot leave before it has launched a new run. */
  lemma {:induction false} BounceHonoured(s: Sys, id: nat, run: seq<Action>)
    requires Inv(s) && id in s.sups && Bouncing(s, s.sups[id]) && IsRun(s, run)
    requires Stop !in run && ParentCancel !in run
    ensures var s' := After(s, run);
            s'.launched > s.launched || (id in s'.sups && Bouncing(s', s'.sups[id]))
    decreases |run|
  {
    if run != [] {
      var a := run[0];
      assert a in run && forall b :: b in run[1..] ==> b in run;
      StepKeepsInv(s, a);
      BouncingStep(s, id, a);
      if Step(s, a).launched == s.launched {
        BounceHonoured(Step(s, a), id, run[1..]);
      } else {
        LaunchedGrows(Step(s, a), run[1..]);
      }
    }
  }

  lemma {:induction false} LaunchedGrows(s: Sys, run: seq<Action>)
    requires IsRun(s, run)
    ensures After(s, run).launched >= s.launched
    decreases |run|
  {
    if run != [] {
      LaunchedGrows(Step(s, run[0]), run[1..]);
    }
  }

  // ----- the fate of a Restart, over every alive state -----

  /** The host's supervisor is bouncing. */
  predicate Honoured(s: Sys) {
    exists id :: id in s.sups && Bouncing(s, s.sups[id])
  }

  /** The host has no owner any more, or one that launches nothing before it leaves. */
  predicate Dropped(s: Sys) {
    !s.host.alive || exists id :: id in s.sups && Doomed(s, s.sups[id])
  }

  /** The outcome is open: a call has claimed the host but not spawned its supervisor yet, or the
      supervisor waits in the select of a back-off whose parent is done. */
  predicate Open(s: Sys) {
    && s.host.alive && !s.host.stopReq
    && (s.sups == map[] || exists id :: id in s.sups && Selecting(s, s.sups[id]))
  }

  /** The exact condition, for every alive host: right after a Restart exactly one of the three holds. The
      bounce is on its way if and only if there is a supervisor that is neither on its way out nor in the
      select of a cancelled back-off; it is lost already if and only if the supervisor is on its way out. */
  lemma RestartHonouredIff(s: Sys)
    requires Inv(s) && s.host.alive
    ensures var s' := Step(s, Restart);
            && (Honoured(s') <==> exists id :: id in s.sups && !Doomed(s, s.sups[id]) && !Selecting(s, s.sups[id]))
            && (Dropped(s') <==> exists id :: id in s.sups && Doomed(s, s.sups[id]))
            && (Open(s') <==> s.sups == map[] || exists id :: id in s.sups && Selecting(s, s.sups[id]))
    ensures var s' := Step(s, Restart);
            && (Honoured(s') || Dropped(s') || Open(s'))
            && !(Honoured(s') && Dropped(s')) && !(Honoured(s') && Open(s')) && !(Dropped(s') && Open(s'))
  {
    var s' := Step(s, Restart);
    if s.sups != map[] {
      var id :| id in s.sups;
      OnlyOne(s, id);
      assert s'.sups == map[id := s.sups[id]];
    }
  }

  /** A dropped Restart stays dropped until somebody calls Restart again. */
  lemma {:induction false} DroppedForGood(s: Sys, run: seq<Action>)
    requires Inv(s) && Dropped(s) && IsRun(s, run) && Restart !in run
    ensures Dropped(After(s, run)) && After(s, run).launched == s.launched
    decreases |run|
  {
    if run != [] {
      assert run[0] in run && forall a :: a in run[1..] ==> a in run;
      StepKeepsInv(s, run[0]);
      DroppedStep(s, run[0]);
      hide Inv, Dropped;
      DroppedForGood(Step(s, run[0]), run[1..]);
    }
  }

  lemma DroppedStep(s: Sys, a: Action)
    requires Inv(s) && Dropped(s) && Enabled(s, a) && a != Restart
    ensures Dropped(Step(s, a)) && Step(s, a).launched == s.launched
  {
    if s.host.alive {
      var id :| id in s.sups && Doomed(s, s.sups[id]);
      OnlyOne(s, id);
      if a != Leave(id) {
        DoomedStep(s, id, a);
      }
    } else {
      assert s.sups == map[];
    }
  }

  /** The steps that decide an open outcome: for the bounce, or against it. */
  predicate Grants(a: Action) {
    a.SpawnStarted? || a.SpawnRestarted? || a.BackoffOver?
  }

  predicate Denies(a: Action) {
    a.Abandon? || a.BackoffCancelled?
  }

  lemma ClaimedStep(s: Sys, a: Action)
    requires Inv(s) && s.host.alive && !s.host.stopReq && s.sups == map[] && Enabled(s, a) && a != Stop
    ensures var s' := Step(s, a);
            && s'.launched == s.launched
            && if Grants(a) then Honoured(s') else if Denies(a) then Dropped(s') else Open(s')
  {
    var s' := Step(s, a);
    if Grants(a) {
      assert a.id in s'.sups && Bouncing(s', s'.sups[a.id]);
    } else {
      assert s'.sups == map[];
    }
  }

  lemma SelectingStep(s: Sys, id: nat, a: Action)
    requires Inv(s) && s.host.alive && !s.host.stopReq && id in s.sups && Selecting(s, s.sups[id])
    requires Enabled(s, a) && a != Stop
    ensures var s' := Step(s, a);
            && s'.launched == s.launched && id in s'.sups && s'.host.alive && !s'.host.stopReq
            && if Grants(a) then Bouncing(s', s'.sups[id])
               else if Denies(a) then Doomed(s', s'.sups[id])
               else Selecting(s', s'.sups[id])
  {
    OnlyOne(s, id);
  }

  lemma OpenStep(s: Sys, a: Action)
    requires Inv(s) && Open(s) && Enabled(s, a) && a != Stop
    ensures var s' := Step(s, a);
            && s'.launched == s.launched
            && if Grants(a) then Honoured(s') else if Denies(a) then Dropped(s') else Open(s')
  {
    if s.sups == map[] {
      hide Inv, Honoured, Dropped, Step, Enabled, Open;
      ClaimedStep(s, a);
    } else {
      var id :| id in s.sups && Selecting(s, s.sups[id]);
      hide Inv, Step, Enabled, Selecting, Bouncing, Doomed;
      SelectingStep(s, id, a);
    }
  }

  /** The first step of a run that decides an open outcome. */
  function Decider(run: seq<Action>): Option<Action> {
    if run == [] then None
    else if Grants(run[0]) || Denies(run[0]) then Some(run[0])
    else Decider(run[1..])
  }

  /** An open outcome is decided by the first such step, and by nothing else: the host that is only claimed
      relaunches if and only if the claim is spawned and not abandoned, and the one in the select if and
      only if the timer wins. */
  lemma {:induction false} OpenDecided(s: Sys, run: seq<Action>)
    requires Inv(s) && Open(s) && IsRun(s, run)
    requires Stop !in run && ParentCancel !in run && Restart !in run
    ensures var s', d := After(s, run), Decider(run);
            if d.None? then Open(s') && s'.launched == s.launched
            else if Grants(d.value) then s'.launched > s.launched || Honoured(s')
            else Dropped(s') && s'.launched == s.launched
    decreases |run|
  {
    if run != [] {
      var a, rest := run[0], run[1..];
      assert a in run && forall b :: b in rest ==> b in run;
      StepKeepsInv(s, a);
      OpenStep(s, a);
      hide Inv, Open;
      if Grants(a) {
        var id :| id in Step(s, a).sups && Bouncing(Step(s, a), Step(s, a).sups[id]);
        BounceHonoured(Step(s, a), id, rest);
      } else if Denies(a) {
        DroppedForGood(Step(s, a), rest);
      } else {
        OpenDecided(Step(s, a), rest);
      }
    }
  }

  /** A run in which a Restart of an alive host succeeds and is then dropped: the host stays
      "restarting" with nobody to restart it. */
  lemma RestartDropped(run: seq<Action>)
    requires run == [SpawnStarted(0), Top(0), Return(0, false), Exit(0), Decide(0), SetFinal(0), Restart, Leave(0)]
    ensures IsRun(Started(false, false), run)
    ensures var s := After(Started(false, false), run);
            !s.host.alive && s.host.status == Restarting && s.sups == map[] && s.restartClaims == 0 && s.launched == 1
  {
    var s0 := Started(false, false);
    var s4 := FourSteps(s0, SpawnStarted(0), Top(0), Return(0, false), Exit(0), run[4..]);
    var s8 := FourSteps(s4, Decide(0), SetFinal(0), Restart, Leave(0), []);
    assert run[4..] == [Decide(0), SetFinal(0), Restart, Leave(0)] + [];
    assert run == [SpawnStarted(0), Top(0), Return(0, false), Exit(0)] + run[4..];
    assert s8.sups == map[];
  }

  /** A run in which a Restart of a host that is only claimed succeeds and is then dropped: the claiming
      call cannot resolve the password, and gives the host up with the second call's flag set. */
  lemma ClaimedRestartDropped(run: seq<Action>)
    requires run == [SpawnStarted(0), Top(0), Return(0, false), Exit(0), Decide(0), SetFinal(0), Leave(0), Restart,
                     Restart, Abandon]
    ensures IsRun(Started(false, false), run)
    ensures var s := After(Started(false, false), run);
            && !s.host.alive && s.host.restartReq && s.host.status == Crashed
            && s.sups == map[] && s.startClaims == 0 && s.restartClaims == 0 && s.launched == 1
  {
    var s0 := Started(false, false);
    var s4 := FourSteps(s0, SpawnStarted(0), Top(0), Return(0, false), Exit(0), run[4..]);
    var s8 := FourSteps(s4, Decide(0), SetFinal(0), Leave(0), Restart, [Restart, Abandon]);
    Unfold(Step(s8, Restart), Abandon, []);
    Unfold(s8, Restart, [Abandon]);
    assert [Restart] + [Abandon] == [Restart, Abandon] && [Abandon] + [] == [Abandon];
    assert run[4..] == [Decide(0), SetFinal(0), Leave(0), Restart] + [Restart, Abandon];
    assert run == [SpawnStarted(0), Top(0), Return(0, false), Exit(0)] + run[4..];
    assert s8.sups == map[];
  }

  lemma FourSteps(s: Sys, a: Action, b: Action, c: Action, d: Action, rest: seq<Action>) returns (s': Sys)
    requires Enabled(s, a) && Enabled(Step(s, a), b) && Enabled(Step(Step(s, a), b), c)
    requires Enabled(Step(Step(Step(s, a), b), c), d)
    ensures s' == Step(Step(Step(Step(s, a), b), c), d)
    ensures IsRun(s', rest) ==> IsRun(s, [a, b, c, d] + rest) && After(s, [a, b, c, d] + rest) == After(s', rest)
  {
    hide Enabled, Step, IsRun, After;
    var s3 := Step(Step(Step(s, a), b), c);
    s' := Step(s3, d);
    if IsRun(s', rest) {
      Unfold(s3, d, rest);
      Unfold(Step(Step(s, a), b), c, [d] + rest);
      Unfold(Step(s, a), b, [c] + ([d] + rest));
      Unfold(s, a, [b] + ([c] + ([d] + rest)));
      assert [a] + ([b] + ([c] + ([d] + rest))) == [a, b, c, d] + rest;
    }
  }

  lemma Unfold(s: Sys, a: Action, rest: seq<Action>)
    requires Enabled(s, a) && IsRun(Step(s, a), rest)
    ensures IsRun(s, [a] + rest) && After(s, [a] + rest) == After(Step(s, a), rest)
  {
    assert ([a] + rest)[1..] == rest;
  }

  // ----- the registry -----

  type Name = string

  datatype FleetAction = StartHost(name: Name, restartPolicy: bool, parentDone: bool)
    | OnHost(name: Name, action: Action)

  predicate FleetEnabled(hosts: map<Name, Sys>, a: FleetAction) {
    a.StartHost? || (a.name in hosts && Enabled(hosts[a.name], a.action))
  }

  /** Starting a name that is already managed is refused; every other step concerns one host. */
  function FleetStep(hosts: map<Name, Sys>, a: FleetAction): map<Name, Sys>
    requires FleetEnabled(hosts, a)
  {
    match a
    case StartHost(name, policy, done) => if name in hosts then hosts else hosts[name := Started(policy, done)]
    case OnHost(name, action) => hosts[name := Step(hosts[name], action)]
  }

  predicate IsFleetRun(hosts: map<Name, Sys>, run: seq<FleetAction>)
    decreases |run|
  {
    run == [] || (FleetEnabled(hosts, run[0]) && IsFleetRun(FleetStep(hosts, run[0]), run[1..]))
  }

  function FleetAfter(hosts: map<Name, Sys>, run: seq<FleetAction>): map<Name, Sys>
    requires IsFleetRun(hosts, run)
    decreases |run|
  {
    if run == [] then hosts else FleetAfter(FleetStep(hosts, run[0]), run[1..])
  }

  /** Whatever is started, stopped and restarted in whatever order, every managed host is safe. */
  lemma {:induction false} FleetSafe(hosts: map<Name, Sys>, run: seq<FleetAction>)
    requires forall n :: n in hosts ==> Inv(hosts[n])
    requires IsFleetRun(hosts, run)
    ensures forall n :: n in FleetAfter(hosts, run) ==> Inv(FleetAfter(hosts, run)[n])
    ensures forall n :: n in hosts ==> n in FleetAfter(hosts, run)
    decreases |run|
  {
    hide Inv, Enabled, Step;
    if run != [] {
      var a := run[0];
      match a
      case StartHost(_, policy, done) => StartedInv(policy, done);
      case OnHost(name, action) => StepKeepsInv(hosts[name], action);
    }
    if run != [] {
      FleetSafe(FleetStep(hosts, run[0]), run[1..]);
    }
  }
}
