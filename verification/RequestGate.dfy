/** The executor's guard against duplicate requests, across concurrent calls, cancellations and restarts
    (execution/executor.py, `open_trade` and its siblings). */
module RequestGate {
  import opened Numbers

  /** What a request is locked under. */
  datatype Request = Open(symbol: string, side: Side) | Close(ticket: int) | Modify(ticket: int)

  predicate Admits(accepting: bool, inflight: set<Request>, request: Request) {
    accepting && request !in inflight
  }

  /** `calls` are the admitted calls that have not ended, `running` the native submissions under way by the
      call that made them. A cancelled call ends at once, but its submission runs on. */
  datatype Desk = Desk(
    accepting: bool, inflight: set<Request>, calls: map<nat, Request>, running: map<nat, Request>)

  const FRESH := Desk(true, {}, map[], map[])

  /** Every call has a number of its own. A call may submit again after a submission has finished. */
  datatype Event =
    | Arrive(call: nat, request: Request)
    | Submit(call: nat)
    | Finish(call: nat)
    | Return(call: nat)
    | Cancel(call: nat)
    | Shutdown
    | Resume

  function Ended(d: Desk, call: nat): Desk
    requires call in d.calls
  {
    d.(inflight := d.inflight - {d.calls[call]}, calls := d.calls - {call})
  }

  function Step(d: Desk, e: Event): Desk {
    match e
    case Arrive(call, request) =>
      if call !in d.calls && call !in d.running && Admits(d.accepting, d.inflight, request) then
        d.(inflight := d.inflight + {request}, calls := d.calls[call := request])
      else d
    case Submit(call) =>
      if call in d.calls && call !in d.running then d.(running := d.running[call := d.calls[call]]) else d
    case Finish(call) => d.(running := d.running - {call})
    case Return(call) => if call in d.calls && call !in d.running then Ended(d, call) else d
    case Cancel(call) => if call in d.calls then Ended(d, call) else d
    case Shutdown => d.(accepting := false)
    case Resume => d.(accepting := true)
  }

  function Run(d: Desk, events: seq<Event>): Desk
    decreases |events|
  {
    if events == [] then d else Run(Step(d, events[0]), events[1..])
  }

  // ---------------------------------------------------------------------------------------
  // One step, written out
  // ---------------------------------------------------------------------------------------

  /** A call is admitted under a free number while the desk accepts and nothing else holds its lock. */
  predicate Begins(d: Desk, e: Event) {
    e.Arrive? && d.accepting && e.request !in d.inflight && e.call !in d.calls && e.call !in d.running
  }

  /** A call ends when it is cancelled, or when it returns, which it cannot while its submission runs. */
  predicate Ends(d: Desk, e: Event) {
    (e.Cancel? || (e.Return? && e.call !in d.running)) && e.call in d.calls
  }

  /** What a step adds, what it takes away, and that it changes nothing else: only a beginning call takes a lock,
      only an ending call gives its lock back, and a submission runs from when its call makes it until it finishes,
      whatever becomes of the call. */
  lemma StepWrittenOut(d: Desk, e: Event)
    ensures
      var t := Step(d, e);
      && (t.accepting <==> e == Resume || (d.accepting && e != Shutdown))
      && (forall r :: r in t.inflight <==>
            (Begins(d, e) && r == e.request) || (r in d.inflight && !(Ends(d, e) && r == d.calls[e.call])))
      && (forall i :: i in t.calls <==>
            (Begins(d, e) && i == e.call) || (i in d.calls && !(Ends(d, e) && i == e.call)))
      && (forall i | i in t.calls :: t.calls[i] == if i in d.calls then d.calls[i] else e.request)
      && (forall i :: i in t.running <==> (e == Submit(i) && i in d.calls) || (i in d.running && e != Finish(i)))
      && (forall i | i in t.running :: t.running[i] == if i in d.running then d.running[i] else d.calls[i])
  {
  }

  // ---------------------------------------------------------------------------------------
  // One call, and one submission, per request
  // ---------------------------------------------------------------------------------------

  /** Different calls hold different locks, and exactly these are in flight. */
  predicate OneCallEach(d: Desk) {
    && (forall i, j | i in d.calls && j in d.calls && d.calls[i] == d.calls[j] :: i == j)
    && (forall i | i in d.calls :: d.calls[i] in d.inflight)
    && (forall r | r in d.inflight :: exists i :: i in d.calls && d.calls[i] == r)
  }

  predicate OneSubmissionEach(d: Desk) {
    forall i, j | i in d.running && j in d.running && d.running[i] == d.running[j] :: i == j
  }

  /** A submission whose call was cancelled. */
  predicate Orphan(d: Desk, i: nat) { i in d.running && i !in d.calls }

  predicate NoOrphans(d: Desk) { forall i | i in d.running :: !Orphan(d, i) }

  lemma StepKeepsCalls(d: Desk, e: Event)
    requires OneCallEach(d)
    ensures OneCallEach(Step(d, e))
  {
    match e {
      case Arrive(call, request) =>
        if call !in d.calls && request !in d.inflight { ArriveKeepsCalls(d, call, request); }
      case Return(call) => if call in d.calls { EndKeepsCalls(d, call); }
      case Cancel(call) => if call in d.calls { EndKeepsCalls(d, call); }
      case _ =>
    }
    hide Ended;
  }

  lemma ArriveKeepsCalls(d: Desk, call: nat, request: Request)
    requires OneCallEach(d) && call !in d.calls && request !in d.inflight
    ensures OneCallEach(d.(inflight := d.inflight + {request}, calls := d.calls[call := request]))
  {
    var t := d.(inflight := d.inflight + {request}, calls := d.calls[call := request]);
    forall r | r in t.inflight ensures exists i :: i in t.calls && t.calls[i] == r {
      if r == request {
        assert t.calls[call] == r;
      } else {
        var i :| i in d.calls && d.calls[i] == r;
        assert t.calls[i] == r;
      }
    }
  }

  lemma EndKeepsCalls(d: Desk, call: nat)
    requires OneCallEach(d) && call in d.calls
    ensures OneCallEach(Ended(d, call))
  {
    var t := Ended(d, call);
    forall r | r in t.inflight ensures exists i :: i in t.calls && t.calls[i] == r {
      var i :| i in d.calls && d.calls[i] == r;
      assert t.calls[i] == r;
    }
  }

  /** Over every run, cancellations and restarts included, no two calls hold the same lock. */
  lemma {:induction false} CallsNeverCollide(d: Desk, events: seq<Event>)
    requires OneCallEach(d)
    ensures OneCallEach(Run(d, events))
    decreases |events|
  {
    if events != [] {
      hide Step, OneCallEach;
      StepKeepsCalls(d, events[0]);
      CallsNeverCollide(Step(d, events[0]), events[1..]);
    }
  }

  /** Nothing is admitted between a shutdown and the next resume. */
  lemma {:induction false} NothingAdmittedAfterShutdown(d: Desk, events: seq<Event>)
    requires !d.accepting && Resume !in events
    ensures !Run(d, events).accepting
    ensures forall i | i in Run(d, events).calls :: i in d.calls && Run(d, events).calls[i] == d.calls[i]
    decreases |events|
  {
    if events != [] {
      var rest := events[1..];
      assert forall e | e in rest :: e in events;
      var next := Step(d, events[0]);
      assert !next.accepting && forall i | i in next.calls :: i in d.calls && next.calls[i] == d.calls[i];
      hide Step;
      NothingAdmittedAfterShutdown(next, rest);
    }
  }

  /** Orphans hold no lock that a call holds, and there are none while work is accepted. */
  predicate Clean(d: Desk) {
    && OneCallEach(d) && OneSubmissionEach(d)
    && (forall i | i in d.running && i in d.calls :: d.running[i] == d.calls[i])
    && (forall i | i in d.running && i !in d.calls :: d.running[i] !in d.inflight)
    && (d.accepting ==> NoOrphans(d))
  }

  /** Calls are cancelled only after a shutdown, and work resumes only once no orphan is left. */
  predicate Disciplined(d: Desk, e: Event) {
    && (e.Cancel? && e.call in d.calls ==> !d.accepting)
    && (e.Resume? ==> NoOrphans(d))
  }

  predicate DisciplinedRun(d: Desk, events: seq<Event>)
    decreases |events|
  {
    events == [] || (Disciplined(d, events[0]) && DisciplinedRun(Step(d, events[0]), events[1..]))
  }

  lemma StepKeepsClean(d: Desk, e: Event)
    requires Clean(d) && Disciplined(d, e)
    ensures Clean(Step(d, e))
  {
    StepKeepsCalls(d, e);
    hide OneCallEach;
    match e {
      case Arrive(call, request) => ArriveKeepsClean(d, call, request);
      case Submit(call) => if call in d.calls && call !in d.running { SubmitKeepsClean(d, call); }
      case Finish(call) => FinishKeepsClean(d, call);
      case Return(call) => if call in d.calls && call !in d.running { EndKeepsClean(d, call); }
      case Cancel(call) => if call in d.calls { EndKeepsClean(d, call); }
      case Shutdown => FlagKeepsClean(d, false);
      case Resume => FlagKeepsClean(d, true);
    }
    hide Clean, OneSubmissionEach, NoOrphans;
  }

  lemma FlagKeepsClean(d: Desk, accepting: bool)
    requires Clean(d) && (accepting ==> NoOrphans(d)) && OneCallEach(d.(accepting := accepting))
    ensures Clean(d.(accepting := accepting))
  {
    hide OneCallEach;
    var t := d.(accepting := accepting);
    assert OneSubmissionEach(t);
    forall i | i in t.running && t.accepting ensures !Orphan(t, i) {
      assert !Orphan(d, i);
    }
  }

  lemma ArriveKeepsClean(d: Desk, call: nat, request: Request)
    requires Clean(d) && OneCallEach(Step(d, Arrive(call, request)))
    ensures Clean(Step(d, Arrive(call, request)))
  {
    hide OneCallEach;
    var t := Step(d, Arrive(call, request));
    if t != d {
      assert NoOrphans(d) && OneSubmissionEach(d);
      assert t.running == d.running && OneSubmissionEach(t);
      forall i | i in t.running ensures !Orphan(t, i) {
        assert !Orphan(d, i);
      }
    }
  }

  lemma FinishKeepsClean(d: Desk, call: nat)
    requires Clean(d) && OneCallEach(d.(running := d.running - {call}))
    ensures Clean(d.(running := d.running - {call}))
  {
    hide OneCallEach;
    var t := d.(running := d.running - {call});
    assert OneSubmissionEach(t);
    forall i | i in t.running && t.accepting ensures !Orphan(t, i) {
      assert !Orphan(d, i);
    }
  }

  lemma SubmitKeepsClean(d: Desk, call: nat)
    requires Clean(d) && call in d.calls && call !in d.running
    ensures Clean(d.(running := d.running[call := d.calls[call]]))
  {
    var t := d.(running := d.running[call := d.calls[call]]);
    forall i | i in d.running ensures d.running[i] != d.calls[call] {
      if i in d.calls { assert d.running[i] == d.calls[i]; }
    }
    assert OneCallEach(t);
    hide OneCallEach;
  }

  lemma EndKeepsClean(d: Desk, call: nat)
    requires Clean(d) && call in d.calls && OneCallEach(Ended(d, call)) && (call in d.running ==> !d.accepting)
    ensures Clean(Ended(d, call))
  {
    var t := Ended(d, call);
    forall i | i in t.running && i !in t.calls ensures t.running[i] !in t.inflight {
      if i == call { assert d.running[i] == d.calls[call]; }
    }
    forall i | i in t.running && t.accepting ensures !Orphan(t, i) {
      assert !Orphan(d, i);
    }
    hide OneCallEach;
  }

  /** Over every disciplined run, each request is being submitted by at most one call at a time. */
  lemma {:induction false} SubmissionsNeverCollide(d: Desk, events: seq<Event>)
    requires Clean(d) && DisciplinedRun(d, events)
    ensures Clean(Run(d, events)) && OneSubmissionEach(Run(d, events))
    decreases |events|
  {
    if events != [] {
      hide Step, Clean, Disciplined;
      StepKeepsClean(d, events[0]);
      SubmissionsNeverCollide(Step(d, events[0]), events[1..]);
    }
    assert Clean(Run(d, events));
  }

  lemma {:induction false} FreshNumber(used: set<nat>) returns (n: nat)
    ensures forall k | k in used :: k < n
  {
    if used == {} {
      n := 0;
    } else {
      var k :| k in used;
      var m := FreshNumber(used - {k});
      n := if k < m then m else k + 1;
      assert used == (used - {k}) + {k};
    }
  }

  /** After a shutdown, resuming keeps every later disciplined run free of duplicate submissions exactly when
      the native work had drained. */
  lemma ResumeIsSafeIff(d: Desk)
    requires Clean(d) && !d.accepting
    ensures
      (forall events | DisciplinedRun(Step(d, Resume), events) :: OneSubmissionEach(Run(Step(d, Resume), events))) <==>
      NoOrphans(d)
  {
    var t := d.(accepting := true);
    assert Step(d, Resume) == t;
    if NoOrphans(d) {
      assert Clean(t);
      forall events | DisciplinedRun(t, events) ensures OneSubmissionEach(Run(t, events)) {
        SubmissionsNeverCollide(t, events);
      }
    } else {
      var i: nat :| Orphan(d, i);
      OrphanHoldsNoLock(d, i);
      var n := FreshNumber(d.calls.Keys + d.running.Keys);
      assert n !in d.calls && n !in d.running;
      Duplicated(t, i, n);
      assert DisciplinedRun(t, Duplicate(d.running[i], n)) && !OneSubmissionEach(Run(t, Duplicate(d.running[i], n)));
    }
  }

  lemma OrphanHoldsNoLock(d: Desk, i: nat)
    requires Clean(d) && Orphan(d, i)
    ensures i in d.running && d.running[i] !in d.inflight
  {
    hide OneCallEach;
  }

  function Duplicate(request: Request, call: nat): seq<Event> { [Arrive(call, request), Submit(call)] }

  lemma Duplicated(d: Desk, i: nat, n: nat)
    requires d.accepting && i in d.running && d.running[i] !in d.inflight && n !in d.calls && n !in d.running
    ensures DisciplinedRun(d, Duplicate(d.running[i], n))
    ensures !OneSubmissionEach(Run(d, Duplicate(d.running[i], n)))
  {
    var request := d.running[i];
    var events := Duplicate(request, n);
    var admitted := Step(d, events[0]);
    var both := Step(admitted, events[1]);
    assert events[1..] == [events[1]] && [events[1]][1..] == [];
    assert Run(admitted, events[1..]) == Run(both, []) == both;
    assert DisciplinedRun(both, []) && DisciplinedRun(admitted, events[1..]);
    assert both.running[i] == both.running[n];
  }

  /** The failing case from a fresh executor: a call is cancelled by a stop while its order is being sent, the
      executor resumes, and the same order is sent a second time beside the first. */
  lemma UndrainedResumeDuplicates(request: Request)
    ensures Clean(FRESH)
    ensures
      var events := [Arrive(0, request), Submit(0), Shutdown, Cancel(0)];
      var d := Run(FRESH, events);
      && DisciplinedRun(FRESH, events) && OneSubmissionEach(d) && !NoOrphans(d)
      && !OneSubmissionEach(Run(Step(d, Resume), Duplicate(request, 1)))
  {
    var sent := Desk(true, {request}, map[0 := request], map[0 := request]);
    var down := sent.(accepting := false);
    var left := Desk(false, {}, map[], map[0 := request]);
    var events := [Arrive(0, request), Submit(0), Shutdown, Cancel(0)];
    assert Step(Step(FRESH, events[0]), events[1]) == sent && Step(sent, events[2]) == down;
    assert Step(down, events[3]) == left by {
      assert down.calls - {0} == map[] && down.inflight - {request} == {};
    }
    assert events[1..][1..][1..][1..] == [] && events[1..][0] == events[1] && events[1..][1..][0] == events[2]
           && events[1..][1..][1..][0] == events[3];
    assert Run(left, []) == left && DisciplinedRun(left, []);
    assert Run(down, events[1..][1..][1..]) == left && DisciplinedRun(down, events[1..][1..][1..]);
    assert Run(sent, events[1..][1..]) == left && DisciplinedRun(sent, events[1..][1..]);
    assert Orphan(left, 0);
    Duplicated(Step(left, Resume), 0, 1);
  }
}
