/** The periodic network update: a run of `updateNetworkStatus` ends by scheduling a timer,
    and a timer that fires starts the next run. Runs may overlap, and calls may come from outside.
    A run in which populating the seeds is rejected ends without scheduling anything. */
module UpdateLoop {
  /** `test` stands for the test environment; the other two are options. */
  datatype Mode = Mode(test: bool, networkStart: bool, disableDiscovery: bool)

  /** `timers` and `runs` count the outstanding timers and the runs in flight. */
  datatype Loop = Loop(scheduled: bool, timers: nat, runs: nat)

  /** An outside call, the end of a run, its rejection, a timer that fires. */
  datatype LoopEvent = Call | EndRun | RejectRun | Fire

  predicate Discovers(m: Mode) {
    !m.test && !m.networkStart && !m.disableDiscovery
  }

  function StartRun(m: Mode, l: Loop): Loop {
    if Discovers(m) then l.(runs := l.runs + 1) else l
  }

  function FinishRun(l: Loop): Loop
    requires l.runs > 0
  {
    if l.scheduled then l.(runs := l.runs - 1)
    else Loop(true, l.timers + 1, l.runs - 1)
  }

  function AbandonRun(l: Loop): Loop
    requires l.runs > 0
  {
    l.(runs := l.runs - 1)
  }

  function FireTimer(m: Mode, l: Loop): Loop
    requires l.timers > 0
  {
    StartRun(m, l.(scheduled := false, timers := l.timers - 1))
  }

  function Next(m: Mode, l: Loop, e: LoopEvent): Loop {
    match e
    case Call => StartRun(m, l)
    case EndRun => if l.runs > 0 then FinishRun(l) else l
    case RejectRun => if l.runs > 0 then AbandonRun(l) else l
    case Fire => if l.timers > 0 then FireTimer(m, l) else l
  }

  function After(m: Mode, es: seq<LoopEvent>): Loop {
    if es == [] then Loop(false, 0, 0) else Next(m, After(m, es[..|es| - 1]), es[|es| - 1])
  }

  function Calls(es: seq<LoopEvent>): nat {
    if es == [] then 0 else Calls(es[..|es| - 1]) + if es[|es| - 1].Call? then 1 else 0
  }

  /** The runs that were rejected. */
  function Rejections(m: Mode, es: seq<LoopEvent>): nat {
    if es == [] then 0
    else
      var front, last := es[..|es| - 1], es[|es| - 1];
      Rejections(m, front) + if last.RejectRun? && After(m, front).runs > 0 then 1 else 0
  }

  /** The flag says whether the one timer is outstanding. Once called, the loop is kept going by
      a run or by a timer unless a run has been rejected, and it never multiplies beyond the calls
      less the rejections. */
  lemma {:induction false} LoopNeitherDiesNorForks(m: Mode, es: seq<LoopEvent>)
    requires Discovers(m)
    ensures
      var l := After(m, es);
      && (l.scheduled <==> l.timers == 1) && l.timers <= 1
      && l.runs + l.timers + Rejections(m, es) <= Calls(es)
      && (Calls(es) > 0 ==> l.runs + l.timers + Rejections(m, es) >= 1)
  {
    if es != [] {
      LoopNeitherDiesNorForks(m, es[..|es| - 1]);
    }
  }

  lemma OneMore(m: Mode, es: seq<LoopEvent>, e: LoopEvent)
    ensures After(m, es + [e]) == Next(m, After(m, es), e)
    ensures Calls(es + [e]) == Calls(es) + if e.Call? then 1 else 0
    ensures Rejections(m, es + [e]) == Rejections(m, es) + if e.RejectRun? && After(m, es).runs > 0 then 1 else 0
  {
    assert (es + [e])[..|es|] == es;
  }

  ghost predicate Alive(m: Mode, es: seq<LoopEvent>) {
    After(m, es).runs + After(m, es).timers > 0
  }

  lemma {:induction false} OneTimerIsLeft(m: Mode, n: nat) returns (es: seq<LoopEvent>)
    requires Discovers(m) && n > 0
    ensures Calls(es) == n && Rejections(m, es) == 0 && After(m, es) == Loop(true, 1, 0)
  {
    var front: seq<LoopEvent> := [];
    if n > 1 { front := OneTimerIsLeft(m, n - 1); }
    OneMore(m, front, Call);
    OneMore(m, front + [Call], EndRun);
    es := front + [Call] + [EndRun];
  }

  /** Seen from the loop alone, one rejected run is enough to end it, however often it was called.
      Module NetworkUpdate says for which nodes runs are rejected. */
  lemma LoopSurvivesExactlyWithoutRejections(m: Mode, n: nat, k: nat)
    requires Discovers(m) && n > 0
    ensures (forall es | Calls(es) == n && Rejections(m, es) <= k :: Alive(m, es)) <==> k == 0
  {
    if k == 0 {
      forall es | Calls(es) == n && Rejections(m, es) == 0 ensures Alive(m, es) {
        LoopNeitherDiesNorForks(m, es);
      }
    } else {
      var front := OneTimerIsLeft(m, n);
      var es := front + [Fire] + [RejectRun];
      OneMore(m, front, Fire);
      OneMore(m, front + [Fire], RejectRun);
      assert Calls(es) == n && Rejections(m, es) == 1 && !Alive(m, es);
    }
  }

  /** In the test environment, in genesis start and where discovery is disabled, no call ever starts a
      run or a timer. */
  lemma {:induction false} NothingRunsWithoutDiscovery(m: Mode, es: seq<LoopEvent>)
    requires m.test || m.networkStart || m.disableDiscovery
    ensures After(m, es) == Loop(false, 0, 0)
  {
    if es != [] {
      NothingRunsWithoutDiscovery(m, es[..|es| - 1]);
    }
  }

  /** There is activity exactly in the modes in which none of the three flags is set, and there the
      first call starts a run. */
  lemma LoopRunsExactlyInOrdinaryMode(m: Mode)
    ensures (forall es :: After(m, es) == Loop(false, 0, 0)) <==> m.test || m.networkStart || m.disableDiscovery
    ensures !m.test && !m.networkStart && !m.disableDiscovery ==> After(m, [Call]) == Loop(false, 0, 1)
  {
    OneMore(m, [], Call);
    assert [] + [Call] == [Call];
    if m.test || m.networkStart || m.disableDiscovery {
      forall es ensures After(m, es) == Loop(false, 0, 0) {
        NothingRunsWithoutDiscovery(m, es);
      }
    }
  }

  lemma {:induction false} CallsAtOnce(m: Mode, n: nat) returns (es: seq<LoopEvent>)
    requires Discovers(m)
    ensures Calls(es) == n && After(m, es) == Loop(false, 0, n)
  {
    if n == 0 {
      es := [];
    } else {
      var front := CallsAtOnce(m, n - 1);
      es := front + [Call];
      assert es[..|es| - 1] == front;
    }
  }

  ghost predicate NoOverlap(m: Mode, es: seq<LoopEvent>) {
    After(m, es).runs <= 1
  }

  /** Runs never overlap exactly when `updateNetworkStatus` is called from outside at most once,
      as it is by `start`. */
  lemma RunsNeverOverlapExactlyAfterOneCall(m: Mode, n: nat)
    requires Discovers(m)
    ensures (forall es | Calls(es) == n :: NoOverlap(m, es)) <==> n <= 1
  {
    if n <= 1 {
      forall es | Calls(es) == n ensures NoOverlap(m, es) {
        LoopNeitherDiesNorForks(m, es);
      }
    } else {
      var es := CallsAtOnce(m, n);
      assert !NoOverlap(m, es);
    }
  }
}
