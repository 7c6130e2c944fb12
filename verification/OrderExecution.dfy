/** Retrying, parsing and reconciling broker orders (execution/executor.py). */
module OrderExecution {
  import opened Numbers
  import Gate = RequestGate

  datatype Retcode = Done | DonePartial | Requote | PriceChanged | PriceOff | Other(code: int)

  /** Only stale quotes are retried: they are the refusals that cannot have changed anything. */
  predicate Retryable(code: Option<Retcode>) {
    code.Some? && (code.value.Requote? || code.value.PriceChanged? || code.value.PriceOff?)
  }

  const MAX_RETRIES: nat := 3
  const POLLS: nat := 3

  /** `success` and the fields a caller acts on; prices and messages are not modelled. */
  datatype Result = Result(
    success: bool, ticket: Option<int>, volume: Option<real>, retcode: Option<Retcode>,
    partial: bool, verified: bool, stateChanged: bool, remaining: Option<real>)

  const REFUSED := Result(false, None, None, None, false, false, false, None)

  datatype Position = Position(ticket: int, side: Side, magic: int, volume: real)

  /** The broker's reply to `order_send`. */
  datatype Reply = Reply(retcode: Retcode, order: int, deal: int, volume: Option<real>)

  /** Successive answers to a repeated position query; `None` is a failed query. */
  type Snapshots = seq<Option<seq<Position>>>

  predicate Completed(reply: Option<Reply>) {
    reply.Some? && (reply.value.retcode.Done? || reply.value.retcode.DonePartial?)
  }

  function ReplyTicket(reply: Reply): Option<int> {
    if reply.order != 0 then Some(reply.order) else if reply.deal != 0 then Some(reply.deal) else None
  }

  function ParseResult(reply: Option<Reply>): Result {
    if reply.None? then REFUSED
    else
      var r := reply.value;
      match r.retcode
      case Done => Result(true, ReplyTicket(r), r.volume, Some(Done), false, false, true, None)
      case DonePartial => Result(false, ReplyTicket(r), r.volume, Some(DonePartial), true, false, true, None)
      case _ =>
        var ticket := if r.order != 0 then Some(r.order) else None;
        Result(false, ticket, None, Some(r.retcode), false, false, false, None)
  }

  function Tolerance(step: real): real { Max(0.00000001, Max(0.0, step) * 0.25) }

  // ---------------------------------------------------------------------------------------
  // Binding an accepted order to a position
  // ---------------------------------------------------------------------------------------

  /** Volumes by ticket; a repeated ticket keeps its last volume. */
  function Volumes(positions: seq<Position>): map<int, real> {
    if positions == [] then map[]
    else
      var last := |positions| - 1;
      Volumes(positions[..last])[positions[last].ticket := positions[last].volume]
  }

  function Prior(before: map<int, real>, ticket: int): real {
    if ticket in before then before[ticket] else 0.0
  }

  predicate IsCandidate(p: Position, side: Side, magic: int, before: map<int, real>) {
    p.side == side && p.magic == magic && p.volume > Prior(before, p.ticket) + 0.000000001
  }

  function Candidates(positions: seq<Position>, side: Side, magic: int, before: map<int, real>): (found: seq<Position>)
    ensures forall p :: p in found <==> p in positions && IsCandidate(p, side, magic, before)
  {
    if positions == [] then []
    else
      var rest := Candidates(positions[1..], side, magic, before);
      if IsCandidate(positions[0], side, magic, before) then [positions[0]] + rest else rest
  }

  /** The candidates of the first snapshot that has any, else the outcome of the last query. */
  function Settled(polls: Snapshots, side: Side, magic: int, before: map<int, real>): Option<seq<Position>> {
    if polls == [] then Some([])
    else
      var found := if polls[0].Some? then Some(Candidates(polls[0].value, side, magic, before)) else None;
      if |polls| == 1 || (found.Some? && found.value != []) then found
      else Settled(polls[1..], side, magic, before)
  }

  function Named(found: seq<Position>, ids: set<int>): (named: seq<Position>)
    ensures forall p :: p in named <==> p in found && p.ticket in ids
  {
    if found == [] then []
    else
      var rest := Named(found[1..], ids);
      if found[0].ticket in ids then [found[0]] + rest else rest
  }

  function ReplyIds(reply: Reply): set<int> {
    (if reply.order > 0 then {reply.order} else {}) + (if reply.deal > 0 then {reply.deal} else {})
  }

  function Bound(found: seq<Position>, ids: set<int>): Option<Position> {
    var named := Named(found, ids);
    if |named| == 1 then Some(named[0]) else if |found| == 1 then Some(found[0]) else None
  }

  function OpenOutcome(
    reply: Option<Reply>, lot: real, side: Side, magic: int, before: seq<Position>, polls: Snapshots, step: real)
    : Result
  {
    var parsed := ParseResult(reply);
    if !Completed(reply) then parsed
    else
      var volumes := Volumes(before);
      var found := Settled(polls, side, magic, volumes);
      if found.None? then parsed.(success := false)
      else if found.value == [] then parsed.(success := false, verified := true)
      else
        var bound := Bound(found.value, ReplyIds(reply.value));
        if bound.None? then parsed.(success := false, verified := true)
        else
          var p := bound.value;
          var actual := Max(0.0, p.volume - Prior(volumes, p.ticket));
          var failed := Result(false, Some(p.ticket), Some(actual), parsed.retcode, false, true, true, Some(p.volume));
          if actual <= Tolerance(step) || actual > lot + Tolerance(step) then failed
          else failed.(success := true, partial := actual + Tolerance(step) < lot)
  }

  // ---------------------------------------------------------------------------------------
  // Closing
  // ---------------------------------------------------------------------------------------

  function Remaining(snapshot: seq<Position>): real {
    if snapshot == [] then 0.0 else snapshot[0].volume
  }

  /** The remaining volume at the first snapshot within tolerance of the expected one, else at the last query. */
  function LastRemaining(polls: Snapshots, expected: real, tolerance: real): Option<real> {
    if polls == [] then None
    else
      var left := if polls[0].Some? then Some(Remaining(polls[0].value)) else None;
      if |polls| == 1 || (left.Some? && Abs(left.value - expected) <= tolerance) then left
      else LastRemaining(polls[1..], expected, tolerance)
  }

  function CloseOutcome(reply: Option<Reply>, ticket: int, held: real, lot: real, polls: Snapshots, step: real): Result
  {
    var parsed := ParseResult(reply);
    if !Completed(reply) then parsed
    else
      var expected, tolerance := Max(0.0, held - lot), Tolerance(step);
      var left := LastRemaining(polls, expected, tolerance);
      if left.None? then parsed.(success := false, ticket := Some(ticket))
      else
        var closed := Max(0.0, held - left.value);
        if Abs(left.value - expected) <= tolerance then
          Result(true, Some(ticket), Some(closed), parsed.retcode, false, true, closed > tolerance, left)
        else
          Result(false, Some(ticket), Some(closed), parsed.retcode,
                 closed > tolerance || parsed.retcode == Some(DonePartial), true, closed > tolerance, left)
  }

  // ---------------------------------------------------------------------------------------
  // Attempts
  // ---------------------------------------------------------------------------------------

  /** What one attempt at opening meets: a local refusal, a dry run, or an order that reaches the broker,
      which fills `filled` lots whatever it then replies and shows. */
  datatype Attempt =
    | Blocked
    | DryRun
    | Sent(reply: Option<Reply>, filled: real, before: seq<Position>, polls: Snapshots)

  function SubmitOpen(a: Attempt, lot: real, side: Side, magic: int, step: real): Result {
    match a
    case Blocked => REFUSED
    case DryRun => Result(true, Some(999999), Some(lot), None, false, true, false, Some(lot))
    case Sent(reply, _, before, polls) => OpenOutcome(reply, lot, side, magic, before, polls, step)
  }

  /** How many attempts are made: up to the first that succeeded or is not worth repeating. */
  function Used(results: seq<Result>): (used: nat)
    ensures used <= |results|
  {
    if results == [] then 0
    else if |results| == 1 || results[0].success || !Retryable(results[0].retcode) then 1
    else 1 + Used(results[1..])
  }

  function Results(attempts: seq<Attempt>, lot: real, side: Side, magic: int, step: real): (results: seq<Result>)
    ensures |results| == |attempts|
  {
    seq(|attempts|, i requires 0 <= i < |attempts| => SubmitOpen(attempts[i], lot, side, magic, step))
  }

  class OrderExecutor {
    var inflight: set<Gate.Request>
    var accepting: bool
    const magic: int

    constructor (magic: int)
      ensures this.magic == magic && inflight == {} && accepting
    {
      this.magic := magic;
      inflight, accepting := {}, true;
    }

    method BeginShutdown()
      modifies this
      ensures !accepting && inflight == old(inflight)
    {
      accepting := false;
    }

    method Resume()
      modifies this
      ensures accepting && inflight == old(inflight)
    {
      accepting := true;
    }

    /** The start of every request, up to its first await. */
    method Admit(request: Gate.Request) returns (admitted: bool)
      modifies this
      ensures accepting == old(accepting)
      ensures admitted == Gate.Admits(accepting, old(inflight), request)
      ensures inflight == old(inflight) + if admitted then {request} else {}
    {
      if !accepting || request in inflight {
        return false;
      }
      inflight := inflight + {request};
      return true;
    }

    /** The end of every admitted request, however it ends. */
    method Release(request: Gate.Request)
      modifies this
      ensures accepting == old(accepting) && inflight == old(inflight) - {request}
    {
      inflight := inflight - {request};
    }

    /** Polls until a candidate shows up, binds it by ticket, and checks its volume. */
    method ReconcileOpen(
      reply: Option<Reply>, lot: real, side: Side, before: seq<Position>, polls: Snapshots, step: real)
      returns (result: Result)
      requires |polls| == POLLS
      ensures result == OpenOutcome(reply, lot, side, magic, before, polls, step)
    {
      result := ParseResult(reply);
      if !Completed(reply) {
        return;
      }
      var volumes := Volumes(before);
      var candidates, failed, attempt := [], false, 0;
      while attempt < POLLS
        invariant attempt <= POLLS
        invariant attempt < POLLS ==>
                    Settled(polls, side, magic, volumes) == Settled(polls[attempt..], side, magic, volumes)
        invariant attempt == POLLS ==>
                    Settled(polls, side, magic, volumes) == if failed then None else Some(candidates)
      {
        if polls[attempt].None? {
          failed := true;
        } else {
          failed := false;
          candidates := Candidates(polls[attempt].value, side, magic, volumes);
          if candidates != [] {
            break;
          }
        }
        attempt := attempt + 1;
      }
      if failed {
        return result.(success := false);
      }
      if candidates == [] {
        return result.(success := false, verified := true);
      }
      var bound := Bound(candidates, ReplyIds(reply.value));
      if bound.None? {
        return result.(success := false, verified := true);
      }
      var p := bound.value;
      var actual := Max(0.0, p.volume - Prior(volumes, p.ticket));
      var accepted := Tolerance(step) < actual <= lot + Tolerance(step);
      result := Result(
        accepted, Some(p.ticket), Some(actual), result.retcode,
        accepted && actual + Tolerance(step) < lot, true, true, Some(p.volume));
    }

    /** Polls until the expected volume is left, and reports what really closed. */
    method ReconcileClose(reply: Option<Reply>, ticket: int, held: real, lot: real, polls: Snapshots, step: real)
      returns (result: Result)
      requires |polls| == POLLS
      ensures result == CloseOutcome(reply, ticket, held, lot, polls, step)
    {
      result := ParseResult(reply);
      if !Completed(reply) {
        return;
      }
      var expected, tolerance := Max(0.0, held - lot), Tolerance(step);
      var left: Option<real> := None;
      var failed, complete, attempt := false, false, 0;
      while attempt < POLLS
        invariant attempt <= POLLS
        invariant !complete
        invariant attempt < POLLS ==>
                    LastRemaining(polls, expected, tolerance) == LastRemaining(polls[attempt..], expected, tolerance)
        invariant attempt == POLLS ==> LastRemaining(polls, expected, tolerance) == if failed then None else left
        invariant attempt > 0 && !failed ==> left.Some? && Abs(left.value - expected) > tolerance
      {
        if polls[attempt].None? {
          failed := true;
        } else {
          failed := false;
          left := Some(Remaining(polls[attempt].value));
          complete := Abs(left.value - expected) <= tolerance;
          if complete {
            break;
          }
        }
        attempt := attempt + 1;
      }
      if failed || left.None? {
        return result.(success := false, ticket := Some(ticket));
      }
      var closed := Max(0.0, held - left.value);
      result := Result(
        complete, Some(ticket), Some(closed), result.retcode,
        !complete && (closed > tolerance || result.retcode == Some(DonePartial)),
        true, closed > tolerance, left);
    }

    /** The retry loop over the results that successive attempts would give. */
    method WithRetry(connected: bool, results: seq<Result>) returns (result: Result, used: nat)
      requires |results| == MAX_RETRIES
      ensures used == if connected then Used(results) else 0
      ensures result == if connected then results[used - 1] else REFUSED
    {
      if !connected {
        return REFUSED, 0;
      }
      used, result := 0, REFUSED;
      while used < MAX_RETRIES
        invariant used <= MAX_RETRIES
        invariant used < MAX_RETRIES ==> Used(results) == used + Used(results[used..])
        invariant used > 0 ==> result == results[used - 1]
        invariant used == MAX_RETRIES ==> Used(results) == used
      {
        result := results[used];
        used := used + 1;
        if result.success || !Retryable(result.retcode) {
          break;
        }
      }
    }

    /** One call that nothing interleaves with. */
    method OpenTrade(
      symbol: string, side: Side, lot: real, connected: bool, attempts: seq<Attempt>, step: real)
      returns (result: Result, used: nat)
      requires |attempts| == MAX_RETRIES
      modifies this
      ensures inflight == old(inflight) && accepting == old(accepting)
      ensures
        var results := Results(attempts, lot, side, magic, step);
        if Gate.Admits(accepting, inflight, Gate.Open(symbol, side)) && connected then
          used == Used(results) && result == results[used - 1]
        else
          used == 0 && result == REFUSED
    {
      var admitted := Admit(Gate.Open(symbol, side));
      if !admitted {
        return REFUSED, 0;
      }
      var results := Results(attempts, lot, side, magic, step);
      result, used := WithRetry(connected, results);
      Release(Gate.Open(symbol, side));
    }
  }

  // ---------------------------------------------------------------------------------------
  // Retry safety
  // ---------------------------------------------------------------------------------------

  /** Every attempt before the last failed in a way worth repeating, and the last settled the matter or was the
      last allowed. */
  lemma {:induction false} UsedMeaning(results: seq<Result>)
    requires results != []
    ensures 1 <= Used(results) <= |results|
    ensures forall i | 0 <= i < Used(results) - 1 :: !results[i].success && Retryable(results[i].retcode)
    ensures var last := results[Used(results) - 1];
            last.success || !Retryable(last.retcode) || Used(results) == |results|
  {
    if |results| > 1 && !results[0].success && Retryable(results[0].retcode) {
      UsedMeaning(results[1..]);
    }
  }

  /** An order was sent and answered with one of the three codes for a stale quote. */
  predicate QuoteRefused(a: Attempt) {
    match a
    case Sent(Some(reply), _, _, _) => reply.retcode in {Requote, PriceChanged, PriceOff}
    case _ => false
  }

  /** Reconciliation never turns a completed order into a retryable result, nor hides a quote refusal. */
  lemma RetryableMeansQuoteRefusal(a: Attempt, lot: real, side: Side, magic: int, step: real)
    ensures
      var r := SubmitOpen(a, lot, side, magic, step);
      (Retryable(r.retcode) <==> QuoteRefused(a)) && (QuoteRefused(a) ==> !r.success)
  {
    hide Settled, Bound, Volumes, ReplyIds;
  }

  /** An attempt is followed by another exactly when it was answered `Requote`, `PriceChanged` or `PriceOff` and
      another is left; never after any other code, a partial fill, a missing answer, a local refusal or a dry
      run. */
  lemma AnotherAttemptIff(attempts: seq<Attempt>, lot: real, side: Side, magic: int, step: real)
    requires attempts != []
    ensures
      var used := Used(Results(attempts, lot, side, magic, step));
      && 1 <= used <= |attempts|
      && (forall i | 0 <= i < used - 1 :: QuoteRefused(attempts[i]))
      && (used < |attempts| ==> !QuoteRefused(attempts[used - 1]))
  {
    var results := Results(attempts, lot, side, magic, step);
    UsedMeaning(results);
    forall i | 0 <= i < |attempts|
      ensures Retryable(results[i].retcode) <==> QuoteRefused(attempts[i])
      ensures QuoteRefused(attempts[i]) ==> !results[i].success
    {
      assert results[i] == SubmitOpen(attempts[i], lot, side, magic, step);
      RetryableMeansQuoteRefusal(attempts[i], lot, side, magic, step);
    }
    hide QuoteRefused, Retryable, Results, SubmitOpen;
  }

  /** The broker fills at most the requested lot per order, and a quote refusal fills nothing. */
  predicate Honest(a: Attempt, lot: real) {
    (a.Sent? ==> 0.0 <= a.filled <= lot) && (QuoteRefused(a) ==> a.filled == 0.0)
  }

  function Filled(a: Attempt): real { if a.Sent? then a.filled else 0.0 }

  function TotalFilled(attempts: seq<Attempt>): real {
    if attempts == [] then 0.0 else Filled(attempts[0]) + TotalFilled(attempts[1..])
  }

  /** However often an open is retried, only its last order can have moved the broker, and all orders
      together open at most the requested volume. */
  lemma {:induction false} RetriesOpenAtMostOnce(attempts: seq<Attempt>, lot: real, side: Side, magic: int, step: real)
    requires attempts != [] && lot >= 0.0
    requires forall a | a in attempts :: Honest(a, lot)
    ensures
      var used := Used(Results(attempts, lot, side, magic, step));
      && 1 <= used <= |attempts|
      && (forall i | 0 <= i < used - 1 :: Filled(attempts[i]) == 0.0)
      && TotalFilled(attempts[..used]) == Filled(attempts[used - 1]) <= lot
  {
    AnotherAttemptIff(attempts, lot, side, magic, step);
    var used := Used(Results(attempts, lot, side, magic, step));
    forall i | 0 <= i < used - 1 ensures Filled(attempts[i]) == 0.0 {
      assert Honest(attempts[i], lot);
    }
    TotalOfQuiet(attempts[..used]);
    assert attempts[used - 1] in attempts;
  }

  lemma {:induction false} TotalOfQuiet(attempts: seq<Attempt>)
    requires attempts != [] && forall i | 0 <= i < |attempts| - 1 :: Filled(attempts[i]) == 0.0
    ensures TotalFilled(attempts) == Filled(attempts[|attempts| - 1])
  {
    if |attempts| > 1 { TotalOfQuiet(attempts[1..]); }
  }

  // ---------------------------------------------------------------------------------------
  // What a reconciled result means
  // ---------------------------------------------------------------------------------------

  lemma {:induction false} SettledIsSnapshot(polls: Snapshots, side: Side, magic: int, before: map<int, real>)
    requires polls != [] && Settled(polls, side, magic, before).Some?
    ensures exists i :: 0 <= i < |polls| && polls[i].Some?
              && Settled(polls, side, magic, before).value == Candidates(polls[i].value, side, magic, before)
  {
    if |polls| > 1 && Settled(polls, side, magic, before) == Settled(polls[1..], side, magic, before) {
      var rest := polls[1..];
      SettledIsSnapshot(rest, side, magic, before);
      var i :| 0 <= i < |rest| && rest[i].Some?
               && Settled(rest, side, magic, before).value == Candidates(rest[i].value, side, magic, before);
      assert polls[i + 1] == rest[i];
    } else {
      assert polls[0].Some?;
    }
  }

  /** `p` is the one position the order can be bound to: the only candidate, or the only candidate whose
      ticket the broker named. */
  ghost predicate OnlyMatch(p: Position, found: seq<Position>, ids: set<int>) {
    p in found && (found == [p] || (Named(found, ids) == [p] && p.ticket in ids))
  }

  /** An open order counts as filled exactly when the broker completed it, one position of this strategy
      can be bound to it, and that position grew by more than the tolerance and no more than the lot. */
  lemma OpenSucceedsIff(
    reply: Option<Reply>, lot: real, side: Side, magic: int, before: seq<Position>, polls: Snapshots, step: real)
    requires polls != []
    ensures
      var r := OpenOutcome(reply, lot, side, magic, before, polls, step);
      var volumes := Volumes(before);
      var found := Settled(polls, side, magic, volumes);
      && (r.success <==>
            && Completed(reply) && found.Some?
            && exists p ::
                 && OnlyMatch(p, found.value, ReplyIds(reply.value))
                 && Tolerance(step) < p.volume - Prior(volumes, p.ticket) <= lot + Tolerance(step))
      && (r.success ==>
            forall p | OnlyMatch(p, found.value, ReplyIds(reply.value)) ::
              && IsCandidate(p, side, magic, volumes)
              && r.ticket == Some(p.ticket) && r.volume == Some(p.volume - Prior(volumes, p.ticket))
              && (r.partial <==> p.volume - Prior(volumes, p.ticket) + Tolerance(step) < lot))
  {
    hide Volumes, Candidates;
    var found := Settled(polls, side, magic, Volumes(before));
    if Completed(reply) && found.Some? {
      SettledIsSnapshot(polls, side, magic, Volumes(before));
      BoundIsOnlyMatch(found.value, ReplyIds(reply.value));
    }
  }

  lemma BoundIsOnlyMatch(found: seq<Position>, ids: set<int>)
    ensures forall p :: OnlyMatch(p, found, ids) <==> Bound(found, ids) == Some(p)
  {
    var named := Named(found, ids);
    if |named| == 1 { assert named == [named[0]] && named[0] in named; }
    if |found| == 1 { assert found == [found[0]]; }
  }

  /** A close counts as done exactly when the broker completed it and the last reading left what was
      expected; and whenever the outcome was read, it reports a change exactly if volume really fell. */
  lemma CloseSucceedsIff(reply: Option<Reply>, ticket: int, held: real, lot: real, polls: Snapshots, step: real)
    requires polls != [] && 0.0 <= lot <= held
    ensures
      var r := CloseOutcome(reply, ticket, held, lot, polls, step);
      var left := LastRemaining(polls, held - lot, Tolerance(step));
      && (r.success <==> Completed(reply) && left.Some? && Abs(left.value - (held - lot)) <= Tolerance(step))
      && (r.verified ==> (r.stateChanged <==> held - left.value > Tolerance(step)))
      && (r.success && lot > 2.0 * Tolerance(step) ==> r.stateChanged)
      && (r.success ==> Abs(r.volume.value - lot) <= Tolerance(step))
      && (r.verified ==> r.remaining == left)
  {
    hide LastRemaining;
  }

  // ---------------------------------------------------------------------------------------
  // Reports written out
  // ---------------------------------------------------------------------------------------

  /** What a ticket's volume was: that of its last entry in the snapshot, or nothing. */
  ghost predicate WasBefore(before: seq<Position>, ticket: int, volume: real) {
    || (exists i :: 0 <= i < |before| && LastEntry(before, ticket, i) && before[i].volume == volume)
    || (volume == 0.0 && forall i | 0 <= i < |before| :: before[i].ticket != ticket)
  }

  predicate LastEntry(before: seq<Position>, ticket: int, i: int)
    requires 0 <= i < |before|
  {
    before[i].ticket == ticket && forall j | i < j < |before| :: before[j].ticket != ticket
  }

  lemma {:induction false} PriorWrittenOut(before: seq<Position>, ticket: int)
    ensures WasBefore(before, ticket, Prior(Volumes(before), ticket))
  {
    if before != [] {
      var n := |before| - 1;
      var front := before[..n];
      PriorWrittenOut(front, ticket);
      assert Prior(Volumes(before), ticket)
          == if before[n].ticket == ticket then before[n].volume else Prior(Volumes(front), ticket);
      hide Volumes, Prior;
      if before[n].ticket == ticket {
        assert LastEntry(before, ticket, n);
      } else {
        WasBeforeLonger(before, ticket, Prior(Volumes(front), ticket));
      }
    }
  }

  lemma WasBeforeLonger(before: seq<Position>, ticket: int, volume: real)
    requires before != [] && before[|before| - 1].ticket != ticket
    requires WasBefore(before[..|before| - 1], ticket, volume)
    ensures WasBefore(before, ticket, volume)
  {
    var front := before[..|before| - 1];
    if i :| 0 <= i < |front| && LastEntry(front, ticket, i) && front[i].volume == volume {
      assert LastEntry(before, ticket, i);
    }
  }

  lemma WasBeforeUnique(before: seq<Position>, ticket: int, a: real, b: real)
    requires WasBefore(before, ticket, a) && WasBefore(before, ticket, b)
    ensures a == b
  {
  }

  /** A position of this side and strategy that has grown since the snapshot. */
  ghost predicate Grown(p: Position, side: Side, magic: int, before: seq<Position>) {
    && p.side == side && p.magic == magic
    && exists volume :: WasBefore(before, p.ticket, volume) && p.volume > volume + 0.000000001
  }

  lemma GrownIff(p: Position, side: Side, magic: int, before: seq<Position>)
    ensures IsCandidate(p, side, magic, Volumes(before)) <==> Grown(p, side, magic, before)
  {
    PriorWrittenOut(before, p.ticket);
    hide WasBefore, Volumes;
    forall volume | WasBefore(before, p.ticket, volume) ensures volume == Prior(Volumes(before), p.ticket) {
      WasBeforeUnique(before, p.ticket, volume, Prior(Volumes(before), p.ticket));
    }
  }

  /** The broker's answer names this ticket. */
  predicate Names(answer: Reply, ticket: int) {
    (answer.order > 0 && answer.order == ticket) || (answer.deal > 0 && answer.deal == ticket)
  }

  /** The one position of a snapshot that an order can be bound to: the only grown one, or the only grown one that
      the broker's answer names. */
  ghost predicate BoundAt(
    i: int, snapshot: seq<Position>, answer: Reply, side: Side, magic: int, before: seq<Position>)
  {
    && 0 <= i < |snapshot| && Grown(snapshot[i], side, magic, before)
    && ((forall j | 0 <= j < |snapshot| && Grown(snapshot[j], side, magic, before) :: j == i)
        || (Names(answer, snapshot[i].ticket)
            && forall j | 0 <= j < |snapshot| && Grown(snapshot[j], side, magic, before)
                          && Names(answer, snapshot[j].ticket) :: j == i))
  }

  /** A filter keeps exactly one element, at this index. */
  ghost predicate OnlyAt<T(!new)>(items: seq<T>, keep: T -> bool, i: int) {
    0 <= i < |items| && keep(items[i]) && forall j | 0 <= j < |items| && keep(items[j]) :: j == i
  }

  function Kept<T>(items: seq<T>, keep: T -> bool): seq<T> {
    if items == [] then []
    else if keep(items[0]) then [items[0]] + Kept(items[1..], keep) else Kept(items[1..], keep)
  }

  lemma {:induction false} KeptNone<T(!new)>(items: seq<T>, keep: T -> bool)
    ensures Kept(items, keep) == [] <==> forall j | 0 <= j < |items| :: !keep(items[j])
  {
    if items != [] {
      KeptNone(items[1..], keep);
      assert forall j | 0 < j < |items| :: items[j] == items[1..][j - 1];
      if Kept(items, keep) == [] {
        forall j | 0 <= j < |items| ensures !keep(items[j]) {
          if j > 0 { assert items[j] == items[1..][j - 1]; }
        }
      } else if !keep(items[0]) {
        var j :| 0 <= j < |items[1..]| && keep(items[1..][j]);
        assert keep(items[j + 1]);
      }
    }
  }

  lemma {:induction false} KeptOne<T(!new)>(items: seq<T>, keep: T -> bool)
    ensures |Kept(items, keep)| == 1 <==> exists i :: OnlyAt(items, keep, i)
    ensures forall i | OnlyAt(items, keep, i) :: Kept(items, keep) == [items[i]]
  {
    if items != [] {
      var rest := items[1..];
      KeptOne(rest, keep);
      KeptNone(rest, keep);
      assert forall j | 0 < j < |items| :: items[j] == rest[j - 1];
      assert forall j | 0 <= j < |rest| :: rest[j] == items[j + 1];
      if keep(items[0]) {
        if Kept(rest, keep) == [] {
          assert OnlyAt(items, keep, 0);
        }
        forall i | OnlyAt(items, keep, i) ensures i == 0 && Kept(rest, keep) == [] {
        }
      } else {
        forall i ensures OnlyAt(rest, keep, i) <==> OnlyAt(items, keep, i + 1) {
        }
        forall i | OnlyAt(items, keep, i) ensures OnlyAt(rest, keep, i - 1) {
        }
        if i :| OnlyAt(rest, keep, i) { assert OnlyAt(items, keep, i + 1); }
      }
    }
  }

  lemma {:induction false} CandidatesKept(positions: seq<Position>, side: Side, magic: int, before: seq<Position>)
    ensures Candidates(positions, side, magic, Volumes(before))
         == Kept(positions, (p: Position) => IsCandidate(p, side, magic, Volumes(before)))
  {
    hide IsCandidate, Volumes;
    if positions != [] { CandidatesKept(positions[1..], side, magic, before); }
  }

  lemma {:induction false} NamedKept(
    positions: seq<Position>, side: Side, magic: int, before: seq<Position>, ids: set<int>)
    ensures Named(Candidates(positions, side, magic, Volumes(before)), ids)
         == Kept(positions, (p: Position) => IsCandidate(p, side, magic, Volumes(before)) && p.ticket in ids)
  {
    hide IsCandidate, Volumes;
    if positions != [] { NamedKept(positions[1..], side, magic, before, ids); }
  }

  lemma BoundIff(snapshot: seq<Position>, answer: Reply, side: Side, magic: int, before: seq<Position>)
    ensures
      var bound := Bound(Candidates(snapshot, side, magic, Volumes(before)), ReplyIds(answer));
      && (bound.Some? <==> exists i :: BoundAt(i, snapshot, answer, side, magic, before))
      && forall i | BoundAt(i, snapshot, answer, side, magic, before) :: bound == Some(snapshot[i])
  {
    var grown := (p: Position) => IsCandidate(p, side, magic, Volumes(before));
    var named := (p: Position) => IsCandidate(p, side, magic, Volumes(before)) && p.ticket in ReplyIds(answer);
    CandidatesKept(snapshot, side, magic, before);
    NamedKept(snapshot, side, magic, before, ReplyIds(answer));
    KeptOne(snapshot, grown);
    KeptOne(snapshot, named);
    forall p: Position
      ensures grown(p) <==> Grown(p, side, magic, before)
      ensures named(p) <==> Grown(p, side, magic, before) && Names(answer, p.ticket)
    {
      GrownIff(p, side, magic, before);
    }
    hide Grown, IsCandidate, Volumes, Names, ReplyIds, Kept;
    forall i ensures BoundAt(i, snapshot, answer, side, magic, before) <==>
                       OnlyAt(snapshot, grown, i) || OnlyAt(snapshot, named, i) {
    }
    forall i, j | OnlyAt(snapshot, named, i) && OnlyAt(snapshot, grown, j) ensures i == j {
    }
  }

  /** The snapshot that decides: the first that shows a grown position, or the last. */
  ghost predicate DecidesOpen(k: nat, polls: Snapshots, side: Side, magic: int, before: seq<Position>) {
    && k < |polls|
    && (forall j | 0 <= j < k :: !ShowsGrowth(polls[j], side, magic, before))
    && (k < |polls| - 1 ==> ShowsGrowth(polls[k], side, magic, before))
  }

  ghost predicate ShowsGrowth(poll: Option<seq<Position>>, side: Side, magic: int, before: seq<Position>) {
    poll.Some? && exists i :: 0 <= i < |poll.value| && Grown(poll.value[i], side, magic, before)
  }

  lemma ShowsGrowthIff(poll: Option<seq<Position>>, side: Side, magic: int, before: seq<Position>)
    ensures ShowsGrowth(poll, side, magic, before) <==>
              poll.Some? && Candidates(poll.value, side, magic, Volumes(before)) != []
  {
    if poll.Some? {
      var grown := (p: Position) => IsCandidate(p, side, magic, Volumes(before));
      CandidatesKept(poll.value, side, magic, before);
      KeptNone(poll.value, grown);
      forall p: Position ensures grown(p) <==> Grown(p, side, magic, before) {
        GrownIff(p, side, magic, before);
      }
      hide Grown, IsCandidate, Volumes, Kept;
    }
  }

  lemma {:induction false} SettledAt(polls: Snapshots, side: Side, magic: int, before: seq<Position>) returns (k: nat)
    requires polls != []
    ensures k < |polls| && DecidesOpen(k, polls, side, magic, before)
    ensures Settled(polls, side, magic, Volumes(before))
         == if polls[k].Some? then Some(Candidates(polls[k].value, side, magic, Volumes(before))) else None
  {
    ShowsGrowthIff(polls[0], side, magic, before);
    hide Candidates, Volumes, ShowsGrowth;
    if |polls| == 1 || ShowsGrowth(polls[0], side, magic, before) {
      k := 0;
    } else {
      var n := SettledAt(polls[1..], side, magic, before);
      assert forall j | 0 < j < |polls| :: polls[j] == polls[1..][j - 1];
      k := n + 1;
    }
  }

  /** A quarter of the volume step, but at least 1e-8. */
  predicate IsTolerance(tolerance: real, step: real) {
    tolerance == if step > 0.00000004 then step / 4.0 else 0.00000001
  }

  lemma ToleranceWrittenOut(step: real)
    ensures IsTolerance(Tolerance(step), step)
  {
  }

  /** The order number, else the deal number, if the answer carries one. */
  predicate TicketOf(ticket: Option<int>, answer: Reply) {
    match ticket
    case None => answer.order == 0 && answer.deal == 0
    case Some(t) => t != 0 && (t == answer.order || (answer.order == 0 && t == answer.deal))
  }

  /** An order that was not completed: no answer, or any code but a full and a partial fill. */
  predicate NotCompleted(r: Result, reply: Option<Reply>) {
    match reply
    case None => r == Result(false, None, None, None, false, false, false, None)
    case Some(answer) =>
      && answer.retcode != Done && answer.retcode != DonePartial
      && r == Result(
           false, if answer.order == 0 then None else Some(answer.order), None, Some(answer.retcode),
           false, false, false, None)
  }

  /** A completed order whose position could not be told; `read` is whether the last query answered. */
  predicate Unbound(r: Result, answer: Reply, read: bool) {
    && TicketOf(r.ticket, answer)
    && r == Result(
         false, r.ticket, answer.volume, Some(answer.retcode), answer.retcode == DonePartial, read, true, None)
  }

  /** A completed order bound to a position that grew by `actual`. */
  predicate BoundTo(r: Result, answer: Reply, p: Position, actual: real, lot: real, tolerance: real) {
    var filled := tolerance < actual && actual <= lot + tolerance;
    r == Result(
      filled, Some(p.ticket), Some(actual), Some(answer.retcode),
      filled && actual < lot - tolerance, true, true, Some(p.volume))
  }

  /** Everything an open reports, from the broker's answer and the snapshots alone. */
  lemma OpenWrittenOut(
    reply: Option<Reply>, lot: real, side: Side, magic: int, before: seq<Position>, polls: Snapshots, step: real)
    returns (k: nat, tolerance: real)
    requires polls != []
    ensures IsTolerance(tolerance, step) && DecidesOpen(k, polls, side, magic, before)
    ensures
      var r := OpenOutcome(reply, lot, side, magic, before, polls, step);
      if reply.None? || (reply.value.retcode != Done && reply.value.retcode != DonePartial) then NotCompleted(r, reply)
      else if polls[k].None? then Unbound(r, reply.value, false)
      else
        && ((forall i :: !BoundAt(i, polls[k].value, reply.value, side, magic, before)) ==>
              Unbound(r, reply.value, true))
        && (forall i | BoundAt(i, polls[k].value, reply.value, side, magic, before) ::
              exists volume ::
                && WasBefore(before, polls[k].value[i].ticket, volume)
                && BoundTo(r, reply.value, polls[k].value[i], polls[k].value[i].volume - volume, lot, tolerance))
  {
    hide Settled, Candidates, Volumes, BoundAt, Tolerance, Bound, DecidesOpen, ReplyIds, WasBefore, OpenOutcome,
         BoundTo, Unbound, NotCompleted, IsTolerance, Prior;
    tolerance := Tolerance(step);
    ToleranceWrittenOut(step);
    k := SettledAt(polls, side, magic, before);
    UnboundReport(reply, lot, side, magic, before, polls, step);
    if Completed(reply) && polls[k].Some? {
      var snapshot, answer := polls[k].value, reply.value;
      BoundIff(snapshot, answer, side, magic, before);
      BoundInRange(snapshot, answer, side, magic, before);
      forall i | 0 <= i < |snapshot| && BoundAt(i, snapshot, answer, side, magic, before)
        ensures
          exists volume ::
            && WasBefore(before, snapshot[i].ticket, volume)
            && BoundTo(
                 OpenOutcome(reply, lot, side, magic, before, polls, step), answer, snapshot[i],
                 snapshot[i].volume - volume, lot, tolerance)
      {
        PriorWrittenOut(before, snapshot[i].ticket);
        BoundHasGrown(i, snapshot, answer, side, magic, before);
        BoundReport(reply, lot, side, magic, before, polls, step, snapshot[i]);
      }
    }
  }

  lemma BoundInRange(snapshot: seq<Position>, answer: Reply, side: Side, magic: int, before: seq<Position>)
    ensures forall i | BoundAt(i, snapshot, answer, side, magic, before) :: 0 <= i < |snapshot|
  {
    hide Grown, Names;
  }

  lemma BoundReport(
    reply: Option<Reply>, lot: real, side: Side, magic: int, before: seq<Position>, polls: Snapshots, step: real,
    p: Position)
    requires Completed(reply) && Settled(polls, side, magic, Volumes(before)).Some?
    requires Bound(Settled(polls, side, magic, Volumes(before)).value, ReplyIds(reply.value)) == Some(p)
    requires p.volume > Prior(Volumes(before), p.ticket)
    ensures BoundTo(
              OpenOutcome(reply, lot, side, magic, before, polls, step), reply.value, p,
              p.volume - Prior(Volumes(before), p.ticket), lot, Tolerance(step))
  {
    hide Settled, Volumes, ReplyIds, Tolerance, Prior;
  }

  lemma UnboundReport(
    reply: Option<Reply>, lot: real, side: Side, magic: int, before: seq<Position>, polls: Snapshots, step: real)
    ensures
      var r := OpenOutcome(reply, lot, side, magic, before, polls, step);
      var found := Settled(polls, side, magic, Volumes(before));
      && (!Completed(reply) ==> NotCompleted(r, reply))
      && (Completed(reply) && found.None? ==> Unbound(r, reply.value, false))
      && (Completed(reply) && found.Some? && Bound(found.value, ReplyIds(reply.value)).None? ==>
            Unbound(r, reply.value, true))
  {
    hide Settled, Volumes, ReplyIds, Tolerance, Bound;
  }

  lemma BoundHasGrown(i: int, snapshot: seq<Position>, answer: Reply, side: Side, magic: int, before: seq<Position>)
    requires 0 <= i < |snapshot| && BoundAt(i, snapshot, answer, side, magic, before)
    ensures snapshot[i].volume > Prior(Volumes(before), snapshot[i].ticket)
  {
    GrownIff(snapshot[i], side, magic, before);
    hide Grown, Volumes;
  }

  /** The reading that decides a close: the first within tolerance of what should be left, or the last. */
  predicate DecidesClose(k: nat, polls: Snapshots, expected: real, tolerance: real) {
    && k < |polls|
    && (forall j | 0 <= j < k :: !Leaves(polls[j], expected, tolerance))
    && (k < |polls| - 1 ==> Leaves(polls[k], expected, tolerance))
  }

  /** The first listed position, if any, is what is left. */
  predicate Leaves(poll: Option<seq<Position>>, expected: real, tolerance: real) {
    match poll
    case None => false
    case Some(positions) =>
      var left := if |positions| > 0 then positions[0].volume else 0.0;
      left - expected <= tolerance && expected - left <= tolerance
  }

  lemma {:induction false} LastRemainingAt(polls: Snapshots, expected: real, tolerance: real) returns (k: nat)
    requires polls != []
    ensures DecidesClose(k, polls, expected, tolerance)
    ensures LastRemaining(polls, expected, tolerance)
         == match polls[k]
            case None => None
            case Some(positions) => Some(if |positions| > 0 then positions[0].volume else 0.0)
  {
    if |polls| == 1 || Leaves(polls[0], expected, tolerance) {
      k := 0;
    } else {
      var n := LastRemainingAt(polls[1..], expected, tolerance);
      hide Leaves;
      assert forall j | 0 < j < |polls| :: polls[j] == polls[1..][j - 1];
      k := n + 1;
    }
  }

  /** Everything a close reports, from the broker's answer and the readings alone. */
  lemma CloseWrittenOut(reply: Option<Reply>, ticket: int, held: real, lot: real, polls: Snapshots, step: real)
    returns (k: nat, tolerance: real)
    requires polls != []
    ensures
      var expected := if lot < held then held - lot else 0.0;
      IsTolerance(tolerance, step) && DecidesClose(k, polls, expected, tolerance)
    ensures
      var expected := if lot < held then held - lot else 0.0;
      var r := CloseOutcome(reply, ticket, held, lot, polls, step);
      if reply.None? || (reply.value.retcode != Done && reply.value.retcode != DonePartial) then NotCompleted(r, reply)
      else
        var partial := reply.value.retcode == DonePartial;
        match polls[k]
        case None =>
          r == Result(false, Some(ticket), reply.value.volume, Some(reply.value.retcode), partial, false, true, None)
        case Some(positions) =>
          var left := if |positions| > 0 then positions[0].volume else 0.0;
          var closed := if left < held then held - left else 0.0;
          var complete := Leaves(polls[k], expected, tolerance);
          r == Result(
            complete, Some(ticket), Some(closed), Some(reply.value.retcode),
            !complete && (closed > tolerance || partial), true, closed > tolerance, Some(left))
  {
    tolerance := Tolerance(step);
    ToleranceWrittenOut(step);
    var expected := if lot < held then held - lot else 0.0;
    assert expected == Max(0.0, held - lot);
    k := LastRemainingAt(polls, expected, tolerance);
    hide LastRemaining, Tolerance;
  }

  /** What one attempt reports when no order reached the broker. */
  lemma UnsentWrittenOut(lot: real, side: Side, magic: int, step: real)
    ensures SubmitOpen(Blocked, lot, side, magic, step) == Result(false, None, None, None, false, false, false, None)
    ensures SubmitOpen(DryRun, lot, side, magic, step)
         == Result(true, Some(999999), Some(lot), None, false, true, false, Some(lot))
  {
  }
}
