/** What a host's status says of its history. */
module HostStatus {
  import opened Options
  import opened Supervisor

  // ----- facts about a trace -----

  /** `a` happens, and no `b` before it. */
  predicate Before(run: seq<Action>, a: Action, b: Action) {
    run != [] && run[0] != b && (run[0] == a || Before(run[1..], a, b))
  }

  /** How the current run of supervisor `id` returned: with an error or without. */
  function Outcome(run: seq<Action>, id: nat): Option<bool> {
    if run == [] then None
    else if run[0].Return? && run[0].id == id then Some(run[0].err)
    else Outcome(run[1..], id)
  }

  /** A Stop is in force when the supervisor looks at it after its run. */
  predicate StopSeen(s: Sys, id: nat, run: seq<Action>) {
    s.host.stopReq || Before(run, Stop, Exit(id))
  }

  /** The parent is cancelled when the supervisor decides what to do next. */
  predicate ParentSeen(s: Sys, id: nat, run: seq<Action>) {
    s.parentDone || Before(run, ParentCancel, Decide(id))
  }

  // ----- the status a supervisor leaves behind -----

  /** The final status of the host if its supervisor leaves without a further launch. */
  function Final(s: Sys, id: nat, run: seq<Action>): Status
    requires id in s.sups
  {
    match s.sups[id]
    case InRun(_) =>
      if Outcome(run, id) == Some(true) && !s.restartPolicy && !s.host.restartReq
         && !StopSeen(s, id, run) && !ParentSeen(s, id, run)
      then Crashed else Stopped
    case Returned(err) =>
      if err && !s.restartPolicy && !s.host.restartReq && !StopSeen(s, id, run) && !ParentSeen(s, id, run)
      then Crashed else Stopped
    case Deciding(stop, restart, err) =>
      if err && !s.restartPolicy && !restart && !stop && !ParentSeen(s, id, run) then Crashed else Stopped
    case Closing(final) => final
    case Leaving => s.host.status
    case AtTop | ToBackoff | InBackoff | Counting => Stopped
  }

  lemma TraceHead(a: Action, rest: seq<Action>, id: nat)
    ensures Before([a] + rest, Stop, Exit(id)) <==> a != Exit(id) && (a == Stop || Before(rest, Stop, Exit(id)))
    ensures Before([a] + rest, ParentCancel, Decide(id)) <==>
            a != Decide(id) && (a == ParentCancel || Before(rest, ParentCancel, Decide(id)))
    ensures Before([a] + rest, Restart, Exit(id)) <==>
            a != Exit(id) && (a == Restart || Before(rest, Restart, Exit(id)))
    ensures Outcome([a] + rest, id) == if a.Return? && a.id == id then Some(a.err) else Outcome(rest, id)
  {
    assert ([a] + rest)[1..] == rest;
  }

  /** What the forecast reads of the fields, and what a step of somebody else leaves of it. */
  lemma OtherStep(s: Sys, id: nat, a: Action)
    requires Inv(s) && id in s.sups && Enabled(s, a) && !OfSupervisor(a) && a != Restart
    ensures var s' := Step(s, a);
            && s'.sups == s.sups && s'.launched == s.launched && s'.restartPolicy == s.restartPolicy
            && s'.host.restartReq == s.host.restartReq && s'.host.restarts == s.host.restarts
            && s'.host.failed == s.host.failed
            && (s'.host.stopReq <==> s.host.stopReq || a == Stop)
            && (s'.parentDone <==> s.parentDone || a == ParentCancel)
            && (s.sups[id].Leaving? ==> s'.host.status == s.host.status)
  {
    OnlyOne(s, id);
    assert GoodPc(s, s.sups[id]);
  }

  /** The steps of everybody else keep the forecast. */
  lemma FinalOther(s: Sys, id: nat, a: Action, rest: seq<Action>)
    requires Inv(s) && id in s.sups && Enabled(s, a) && !OfSupervisor(a) && a != Restart
    ensures var s' := Step(s, a);
            id in s'.sups && Final(s', id, rest) == Final(s, id, [a] + rest)
  {
    hide Before, Outcome, Inv, Step, Enabled;
    OtherStep(s, id, a);
    TraceHead(a, rest, id);
  }

  /** So do the supervisor's own steps up to the decision. */
  lemma FinalRunning(s: Sys, id: nat, a: Action, rest: seq<Action>)
    requires Inv(s) && id in s.sups && Enabled(s, a) && (a.Ready? || a.Return? || a.Exit?) && a.id == id
    ensures var s' := Step(s, a);
            id in s'.sups && s'.launched == s.launched && Final(s', id, rest) == Final(s, id, [a] + rest)
  {
    TraceHead(a, rest, id);
    hide Before, Outcome, Inv;
  }

  /** And the decision. */
  lemma FinalDecision(s: Sys, id: nat, rest: seq<Action>)
    requires id in s.sups && Enabled(s, Decide(id))
    ensures var s' := Step(s, Decide(id));
            id in s'.sups && s'.launched == s.launched && Final(s', id, rest) == Final(s, id, [Decide(id)] + rest)
  {
    TraceHead(Decide(id), rest, id);
    hide Before, Outcome;
  }

  /** After it the forecast reads nothing of the trace. */
  lemma FinalClosing(s: Sys, id: nat, a: Action, rest: seq<Action>)
    requires Inv(s) && id in s.sups && Enabled(s, a) && OfSupervisor(a) && a.id == id
    requires !a.Ready? && !a.Return? && !a.Exit? && !a.Decide? && Step(s, a).launched == s.launched
    ensures var s' := Step(s, a);
            if id in s'.sups then Final(s', id, rest) == Final(s, id, [a] + rest)
            else s'.host.status == Final(s, id, [a] + rest) && !s'.host.alive && s'.sups == map[]
  {
    OnlyOne(s, id);
    hide Before, Outcome, Inv;
  }

  lemma FinalOwn(s: Sys, id: nat, a: Action, rest: seq<Action>)
    requires Inv(s) && id in s.sups && Enabled(s, a) && OfSupervisor(a) && Step(s, a).launched == s.launched
    ensures var s' := Step(s, a);
            if id in s'.sups then Final(s', id, rest) == Final(s, id, [a] + rest)
            else s'.host.status == Final(s, id, [a] + rest) && !s'.host.alive && s'.sups == map[]
  {
    OnlyOne(s, id);
    assert a.id == id;
    hide Inv, Step, Enabled, Final;
    if a.Decide? {
      FinalDecision(s, id, rest);
    } else if a.Ready? || a.Return? || a.Exit? {
      FinalRunning(s, id, a, rest);
    } else {
      FinalClosing(s, id, a, rest);
    }
  }

  /** Nobody owns the host: its status stays until the next Restart. */
  lemma {:induction false} DeadStays(s: Sys, run: seq<Action>)
    requires Inv(s) && !s.host.alive && IsRun(s, run) && Restart !in run
    ensures After(s, run).sups == map[] && After(s, run).host.status == s.host.status
    decreases |run|
  {
    assert s.sups == map[];
    if run != [] {
      assert run[0] in run && forall b :: b in run[1..] ==> b in run;
      DeadStep(s, run[0]);
      StepKeepsInv(s, run[0]);
      hide Inv;
      DeadStays(Step(s, run[0]), run[1..]);
    }
  }

  lemma DeadStep(s: Sys, a: Action)
    requires Inv(s) && !s.host.alive && Enabled(s, a) && a != Restart
    ensures !Step(s, a).host.alive && Step(s, a).host.status == s.host.status
  {
    assert s.sups == map[];
  }

  /** Whatever happens meanwhile, a supervisor that leaves without a further launch, no Restart coming,
      leaves the status its place and the trace foretell. */
  lemma {:induction false} Foretold(s: Sys, id: nat, run: seq<Action>)
    requires Inv(s) && id in s.sups && IsRun(s, run) && Restart !in run
    requires id !in After(s, run).sups && After(s, run).launched == s.launched
    ensures After(s, run).host.status == Final(s, id, run)
    decreases |run|
  {
    if run != [] {
      var a, rest := run[0], run[1..];
      assert run == [a] + rest && a in run && forall b :: b in rest ==> b in run;
      StepKeepsInv(s, a);
      LaunchedGrows(Step(s, a), rest);
      LaunchedStep(s, a);
      hide Inv, Final, Enabled, Step;
      if OfSupervisor(a) {
        FinalOwn(s, id, a, rest);
      } else {
        FinalOther(s, id, a, rest);
      }
      if id in Step(s, a).sups {
        Foretold(Step(s, a), id, rest);
      } else {
        DeadStays(Step(s, a), rest);
      }
    }
  }

  lemma LaunchedStep(s: Sys, a: Action)
    requires Enabled(s, a)
    ensures Step(s, a).launched >= s.launched
  {
  }

  /** A run is over and the supervisor gone, with no launch since and no Restart: the host is crashed if and
      only if the run returned an error, the policy is hold, no bounce was asked for before, and neither a
      Stop nor the parent's cancellation was seen. Otherwise it is stopped. */
  lemma FinalStatus(s: Sys, id: nat, run: seq<Action>)
    requires Inv(s) && id in s.sups && s.sups[id].InRun? && IsRun(s, run) && Restart !in run
    requires id !in After(s, run).sups && After(s, run).launched == s.launched
    ensures var status := After(s, run).host.status;
            && (status == Crashed || status == Stopped)
            && (status == Crashed <==>
                  && Outcome(run, id) == Some(true) && !s.restartPolicy && !s.host.restartReq
                  && !s.host.stopReq && !Before(run, Stop, Exit(id))
                  && !s.parentDone && !Before(run, ParentCancel, Decide(id)))
  {
    Foretold(s, id, run);
  }

  // ----- the status of a live host -----

  /** The conductor flag of the last ready callback. */
  function LastReady(run: seq<Action>): Option<bool> {
    if run == [] then None
    else if run[|run| - 1].Ready? then Some(run[|run| - 1].conductor)
    else LastReady(run[..|run| - 1])
  }

  /** Of Stop and Restart, Stop came last. */
  predicate StopLast(run: seq<Action>) {
    run != [] && (run[|run| - 1].Stop? || (!run[|run| - 1].Restart? && StopLast(run[..|run| - 1])))
  }

  /** A Pause or Resume is granted: the host is ready, with a conductor, and not told to stop. */
  predicate Grantable(run: seq<Action>) {
    LastReady(run) == Some(true) && !StopLast(run)
  }

  /** What is shown after these actions since the launch: the last Restart, granted Pause, granted Resume, or
      ready callback of a starting host decides. */
  function Shown(run: seq<Action>): Status {
    if run == [] then Starting
    else
      var init, a := run[..|run| - 1], run[|run| - 1];
      if a.Restart? then Restarting
      else if a.Pause? && Grantable(init) then Paused
      else if a.Resume? && Grantable(init) then Running
      else if a.Ready? && Shown(init).Starting? then Running
      else Shown(init)
  }

  lemma {:induction false} RunSnoc(s: Sys, run: seq<Action>, a: Action)
    requires IsRun(s, run + [a])
    ensures IsRun(s, run) && Enabled(After(s, run), a) && After(s, run + [a]) == Step(After(s, run), a)
    decreases |run|
  {
    hide Enabled, Step;
    if run == [] {
      assert run + [a] == [a] && [a][1..] == [];
    } else {
      assert (run + [a])[1..] == run[1..] + [a];
      RunSnoc(Step(s, run[0]), run[1..], a);
    }
  }

  /** A supervisor that is in an old run was in it before. */
  lemma SameRun(s: Sys, id: nat, a: Action, n: nat)
    requires Enabled(s, a) && n < s.launched && At(Step(s, a), id, InRun(n))
    ensures At(s, id, InRun(n)) && Step(s, a).launched >= s.launched
  {
  }

  lemma LaunchedPast(s: Sys, id: nat, run: seq<Action>)
    requires At(s, id, AtTop) && !s.host.stopReq && IsRun(s, [Top(id)] + run)
    ensures After(s, [Top(id)] + run).launched > s.launched
  {
    assert ([Top(id)] + run)[1..] == run;
    LaunchedGrows(Step(s, Top(id)), run);
  }

  /** The fields of a live host, after `run` since the launch. */
  predicate Tracks(h: Host, n: nat, run: seq<Action>) {
    && h.status == Shown(run) && h.stopReq == StopLast(run)
    && h.handle == (if LastReady(run).Some? then Some(Handle(n, LastReady(run).value)) else None)
    && (h.restartReq <==> Restart in run) && !h.failed && h.cancel == Some(n)
  }

  lemma TraceSnoc(run: seq<Action>, a: Action)
    ensures LastReady(run + [a]) == if a.Ready? then Some(a.conductor) else LastReady(run)
    ensures StopLast(run + [a]) <==> a.Stop? || (!a.Restart? && StopLast(run))
    ensures Restart in run + [a] <==> a == Restart || Restart in run
    ensures Shown(run + [a]) ==
            if a.Restart? then Restarting
            else if a.Pause? && Grantable(run) then Paused
            else if a.Resume? && Grantable(run) then Running
            else if a.Ready? && Shown(run).Starting? then Running
            else Shown(run)
  {
    assert (run + [a])[..|run|] == run;
  }

  lemma TracksStep(s: Sys, id: nat, n: nat, run: seq<Action>, a: Action)
    requires Inv(s) && At(s, id, InRun(n)) && Tracks(s.host, n, run)
    requires Enabled(s, a) && At(Step(s, a), id, InRun(n)) && n < s.launched
    ensures Tracks(Step(s, a).host, n, run + [a])
  {
    OnlyOne(s, id);
    ShownLive(run);
    TraceSnoc(run, a);
    hide Inv, Shown, StopLast, LastReady;
  }

  lemma {:induction false} ShownLive(run: seq<Action>)
    ensures !Shown(run).Stopped? && !Shown(run).Crashed?
    decreases |run|
  {
    if run != [] {
      ShownLive(run[..|run| - 1]);
    }
  }

  /** While a launched run goes on, the host shows exactly what the trace since the launch says. */
  lemma {:induction false} LiveStatus(s: Sys, id: nat, run: seq<Action>)
    requires Inv(s) && At(s, id, AtTop) && !s.host.stopReq && IsRun(s, [Top(id)] + run)
    requires At(After(s, [Top(id)] + run), id, InRun(s.launched))
    ensures Tracks(After(s, [Top(id)] + run).host, s.launched, run)
    ensures Inv(After(s, [Top(id)] + run)) && After(s, [Top(id)] + run).launched > s.launched
    decreases |run|
  {
    if run == [] {
      assert [Top(id)] + run == [] + [Top(id)];
      RunSnoc(s, [], Top(id));
      StepKeepsInv(s, Top(id));
    } else {
      var init, a := run[..|run| - 1], run[|run| - 1];
      assert [Top(id)] + run == ([Top(id)] + init) + [a];
      RunSnoc(s, [Top(id)] + init, a);
      var t := After(s, [Top(id)] + init);
      LaunchedPast(s, id, init);
      hide Inv, Step, Enabled, Tracks;
      SameRun(t, id, a, s.launched);
      LiveStatus(s, id, init);
      StepKeepsInv(t, a);
      assert run == init + [a];
      TracksStep(t, id, s.launched, init, a);
    }
  }

  /** In every reachable state a host in back-off shows "restarting". */
  lemma BackoffShowsRestarting(restartPolicy: bool, parentDone: bool, run: seq<Action>, id: nat)
    requires IsRun(Started(restartPolicy, parentDone), run)
    requires At(After(Started(restartPolicy, parentDone), run), id, InBackoff)
    ensures After(Started(restartPolicy, parentDone), run).host.status == Restarting
  {
    StartedInv(restartPolicy, parentDone);
    RunKeepsInv(Started(restartPolicy, parentDone), run);
    var s := After(Started(restartPolicy, parentDone), run);
    assert GoodPc(s, s.sups[id]);
  }

  // ----- why a supervisor launches again -----

  /** A bounce is in force when the supervisor looks after its run. */
  predicate Bounced(s: Sys, id: nat, run: seq<Action>) {
    s.host.restartReq || Before(run, Restart, Exit(id))
  }

  /** If the supervisor launches again after `run`: does it because of a crash? */
  predicate AfterCrash(s: Sys, id: nat, run: seq<Action>)
    requires id in s.sups
  {
    match s.sups[id]
    case InRun(_) | Returned(_) => !Bounced(s, id, run)
    case Deciding(_, restart, _) => !restart
    case ToBackoff | InBackoff | Counting => true
    case _ => false
  }

  /** The supervisor's place allows another launch for that reason. */
  predicate MayRelaunch(s: Sys, id: nat, run: seq<Action>)
    requires id in s.sups
  {
    match s.sups[id]
    case InRun(_) => Bounced(s, id, run) || (Outcome(run, id) == Some(true) && s.restartPolicy)
    case Returned(err) => Bounced(s, id, run) || (err && s.restartPolicy)
    case Deciding(stop, restart, err) => !stop && (restart || (err && s.restartPolicy))
    case Closing(_) | Leaving => false
    case _ => true
  }

  /** How often the crash is still to be counted. */
  function ToCount(s: Sys, id: nat, run: seq<Action>): nat
    requires id in s.sups
  {
    if AfterCrash(s, id, run) then 1 else 0
  }

  lemma RelaunchOther(s: Sys, id: nat, a: Action, rest: seq<Action>)
    requires Inv(s) && id in s.sups && Enabled(s, a) && !OfSupervisor(a)
    ensures var s' := Step(s, a);
            && id in s'.sups && s'.launched == s.launched && s'.host.restarts == s.host.restarts
            && (MayRelaunch(s', id, rest) ==> MayRelaunch(s, id, [a] + rest))
            && AfterCrash(s', id, rest) == AfterCrash(s, id, [a] + rest)
  {
    if a == Restart {
      OnlyOne(s, id);
    } else {
      OtherStep(s, id, a);
    }
    TraceHead(a, rest, id);
    hide Before, Outcome, Inv;
    if a != Restart {
      hide Step;
    }
  }

  lemma RelaunchOwn(s: Sys, id: nat, a: Action, rest: seq<Action>)
    requires Inv(s) && id in s.sups && Enabled(s, a) && OfSupervisor(a) && a.id == id && a != Leave(id)
    requires Step(s, a).launched == s.launched
    ensures var s' := Step(s, a);
            && id in s'.sups
            && (MayRelaunch(s', id, rest) ==> MayRelaunch(s, id, [a] + rest))
            && (MayRelaunch(s', id, rest) ==> s'.host.restarts + ToCount(s', id, rest) ==
                                              s.host.restarts + ToCount(s, id, [a] + rest))
  {
    TraceHead(a, rest, id);
    hide Before, Outcome, Inv;
  }

  /** When a supervisor is back at the top of its loop, either a bounce was asked for and nothing is counted, or
      the run returned an error under the restart policy and exactly one restart is counted. */
  lemma {:induction false} BackAtTop(s: Sys, id: nat, run: seq<Action>)
    requires Inv(s) && id in s.sups && IsRun(s, run) && Leave(id) !in run
    requires After(s, run).launched == s.launched && At(After(s, run), id, AtTop)
    ensures MayRelaunch(s, id, run) && After(s, run).host.restarts == s.host.restarts + ToCount(s, id, run)
    decreases |run|
  {
    if run != [] {
      var a, rest := run[0], run[1..];
      assert run == [a] + rest && a in run && forall b :: b in rest ==> b in run;
      LaunchedGrows(Step(s, a), rest);
      LaunchedStep(s, a);
      StepKeepsInv(s, a);
      OnlyOne(s, id);
      hide Inv, Step, Enabled, MayRelaunch, AfterCrash;
      if OfSupervisor(a) {
        OwnId(s, id, a);
        RelaunchOwn(s, id, a, rest);
      } else {
        RelaunchOther(s, id, a, rest);
      }
      BackAtTop(Step(s, a), id, rest);
    }
  }

  lemma OwnId(s: Sys, id: nat, a: Action)
    requires id in s.sups && s.sups == map[id := s.sups[id]] && Enabled(s, a) && OfSupervisor(a)
    ensures a.id == id
  {
  }

  /** The same, said of a run that is going on and of the trace that leads back to the top. */
  lemma RelaunchReason(s: Sys, id: nat, run: seq<Action>)
    requires Inv(s) && id in s.sups && s.sups[id].InRun? && IsRun(s, run) && Leave(id) !in run
    requires After(s, run).launched == s.launched && At(After(s, run), id, AtTop)
    ensures var bounced := s.host.restartReq || Before(run, Restart, Exit(id));
            && (bounced || (Outcome(run, id) == Some(true) && s.restartPolicy))
            && After(s, run).host.restarts == s.host.restarts + if bounced then 0 else 1
  {
    BackAtTop(s, id, run);
  }

  // ----- the recorded failure -----

  /** A failure is recorded by the time the supervisor leaves. */
  predicate WillFail(s: Sys, id: nat, run: seq<Action>)
    requires id in s.sups
  {
    s.host.failed ||
    match s.sups[id]
    case InRun(_) => Outcome(run, id) == Some(true)
    case Returned(err) => err
    case _ => false
  }

  lemma FailOwn(s: Sys, id: nat, a: Action, rest: seq<Action>)
    requires id in s.sups && Enabled(s, a) && OfSupervisor(a) && a.id == id && Step(s, a).launched == s.launched
    ensures var s' := Step(s, a);
            if id in s'.sups then WillFail(s', id, rest) == WillFail(s, id, [a] + rest)
            else s'.host.failed == WillFail(s, id, [a] + rest) && !s'.host.alive
  {
    TraceHead(a, rest, id);
    hide Outcome, Before;
    if a.Decide? {
      hide Verdict;
      VerdictPlace(s, s.sups[id]);
    }
  }

  lemma VerdictPlace(s: Sys, d: Pc)
    requires d.Deciding?
    ensures var v := Verdict(s, d); v.Closing? || v.AtTop? || v.ToBackoff?
  {
  }

  lemma FailStep(s: Sys, id: nat, a: Action, rest: seq<Action>)
    requires Inv(s) && id in s.sups && Enabled(s, a) && a != Restart && Step(s, a).launched == s.launched
    ensures var s' := Step(s, a);
            if id in s'.sups then WillFail(s', id, rest) == WillFail(s, id, [a] + rest)
            else s'.host.failed == WillFail(s, id, [a] + rest) && !s'.host.alive
  {
    hide Before, Outcome, Step, Enabled;
    if OfSupervisor(a) {
      OnlyOne(s, id);
      OwnId(s, id, a);
      hide Inv;
      FailOwn(s, id, a, rest);
    } else {
      OtherStep(s, id, a);
      TraceHead(a, rest, id);
    }
  }

  lemma {:induction false} DeadKeepsFailure(s: Sys, run: seq<Action>)
    requires Inv(s) && !s.host.alive && IsRun(s, run) && Restart !in run
    ensures After(s, run).host.failed == s.host.failed
    decreases |run|
  {
    assert s.sups == map[];
    if run != [] {
      assert run[0] in run && forall b :: b in run[1..] ==> b in run;
      DeadStep(s, run[0]);
      StepKeepsInv(s, run[0]);
      DeadKeepsFailure(Step(s, run[0]), run[1..]);
    }
  }

  /** When a supervisor leaves without a further launch and no Restart comes, an error is on record if and only
      if there was one before or its run returned one. */
  lemma {:induction false} FailureRecorded(s: Sys, id: nat, run: seq<Action>)
    requires Inv(s) && id in s.sups && IsRun(s, run) && Restart !in run
    requires id !in After(s, run).sups && After(s, run).launched == s.launched
    ensures After(s, run).host.failed <==> WillFail(s, id, run)
    decreases |run|
  {
    if run != [] {
      var a, rest := run[0], run[1..];
      assert run == [a] + rest && a in run && forall b :: b in rest ==> b in run;
      StepKeepsInv(s, a);
      LaunchedGrows(Step(s, a), rest);
      LaunchedStep(s, a);
      FailStep(s, id, a, rest);
      hide Inv, WillFail, Enabled, Step;
      if id in Step(s, a).sups {
        FailureRecorded(Step(s, a), id, rest);
      } else {
        DeadKeepsFailure(Step(s, a), rest);
      }
    }
  }

  /** A Restart cuts the run that is live: it fetches its cancel function, and the run is cancelled once the
      fetched ones have been called. */
  lemma RestartCutsLiveRun(s: Sys, id: nat, run: seq<Action>)
    requires Inv(s) && id in s.sups && s.sups[id].InRun?
    requires IsRun(Step(s, Restart), run) && After(Step(s, Restart), run).pending == multiset{}
    ensures s.sups[id].run in Step(s, Restart).pending
    ensures s.sups[id].run in After(Step(s, Restart), run).cancelled
  {
    OnlyOne(s, id);
    assert GoodPc(s, s.sups[id]);
    CancelNotLost(Step(s, Restart), run, s.sups[id].run);
  }

  /** A Restart of a dead host shows it starting, without an error; if the claim is given up it is crashed, with one. */
  lemma ClaimShows(s: Sys)
    requires Inv(s) && !s.host.alive
    ensures var c := Step(s, Restart);
            && c.host.status == Starting && !c.host.failed && c.host.alive && c.restartClaims > 0
            && var d := Step(c, Abandon);
               d.host.status == Crashed && d.host.failed && !d.host.alive && d.launched == s.launched
  {
  }
}
