/** How the engine keeps the ratchet alive across storage failures and restarts
    (core/engine.py, `_update_profit_retention`). */
module RetentionEngine {
  import opened Numbers
  import opened Retention

  /** What a storage read did: raise, answer with the record, or swallow an error and answer "nothing". */
  datatype Read = Raised | Answered | Missed

  /** Everything that concerns one ticket. Only `disk` outlives the process. */
  datatype Slot = Slot(working: State, loaded: bool, persisted: State, disk: Option<Fields>)

  function Durable(slot: Slot): State { FromDict(slot.disk) }

  function Fetch(disk: Option<Fields>, read: Read): State {
    if read.Missed? then FromDict(None) else FromDict(disk)
  }

  function Merge(a: State, b: State): State {
    State(Max(a.peak, b.peak), Max(a.floor, b.floor), a.volume, Max(a.reference, b.reference))
  }

  /** Whether a state differs enough from the last confirmed one to be written again. */
  predicate Changed(s: State, persisted: State) {
    || s.floor != persisted.floor
    || s.volume != persisted.volume
    || s.reference != persisted.reference
    || Abs(s.peak - persisted.peak) >= 0.01 - EPSILON
  }

  function Load(slot: Slot, seen: Reading<Observation>, policy: Reading<Policy>, read: Read): Slot {
    var state := Advance(slot.working, seen, policy);
    if slot.loaded || read.Raised? then
      slot.(working := state)
    else
      var stored := Fetch(slot.disk, read);
      var restored := Advance(stored, seen, policy);
      Slot(if restored.volume == state.volume then Merge(state, restored) else state, true, stored, slot.disk)
  }

  function Save(slot: Slot, write: Write): Slot {
    if slot.loaded && Changed(slot.working, slot.persisted) then
      match write
      case Confirmed => slot.(persisted := slot.working, disk := Some(ToDict(slot.working)))
      case Unconfirmed => slot.(disk := Some(ToDict(slot.working)))
      case Refused => slot
    else slot
  }

  /** One protection cycle for one ticket. */
  function Cycle(slot: Slot, seen: Reading<Observation>, policy: Reading<Policy>, read: Read, write: Write): Slot {
    Save(Load(slot, seen, policy, read), write)
  }

  function Restarted(slot: Slot): Slot { Slot(EMPTY, false, EMPTY, slot.disk) }

  class ProfitRetention<Account(==)> {
    var account: Account
    var states: map<int, State>
    var persisted: map<int, State>
    var loaded: set<int>
    var lockLevels: map<int, real>
    /** The key-value table of the database, which no restart clears. */
    var cache: map<(Account, int), Fields>

    function View(ticket: int): Slot
      reads this
    {
      Slot(
        if ticket in states then states[ticket] else EMPTY,
        ticket in loaded,
        if ticket in persisted then persisted[ticket] else EMPTY,
        Record(ticket))
    }

    function Record(ticket: int): Option<Fields>
      reads this
    {
      if (account, ticket) in cache then Some(cache[(account, ticket)]) else None
    }

    constructor (active: Account)
      ensures account == active && cache == map[]
      ensures forall ticket :: View(ticket) == Slot(EMPTY, false, EMPTY, None)
    {
      account := active;
      states, persisted, loaded, lockLevels, cache := map[], map[], {}, map[], map[];
    }

    /** One cycle: exactly this ticket of exactly this account moves, and as `Cycle` says. A change of
        size also forgets which cash floor the broker's stop stood for. */
    method UpdateProfitRetention(
      enabled: bool, ticket: int, seen: Reading<Observation>, policy: Reading<Policy>, read: Read, write: Write)
      returns (state: State)
      modifies this
      ensures account == old(account)
      ensures !enabled ==> state == EMPTY && unchanged(this)
      ensures enabled ==> View(ticket) == Cycle(old(View(ticket)), seen, policy, read, write)
      ensures enabled ==> state == View(ticket).working
      ensures forall other | other != ticket :: View(other) == old(View(other))
      ensures forall key | key != (account, ticket) ::
                (key in cache <==> key in old(cache)) && (key in cache ==> cache[key] == old(cache)[key])
      ensures enabled ==>
                var before := old(View(ticket)).working;
                var after := Advance(before, seen, policy);
                lockLevels == if before.volume > 0.0 && after.volume != before.volume
                              then old(lockLevels) - {ticket} else old(lockLevels)
    {
      if !enabled {
        return EMPTY;
      }
      hide Advance, Merge, Changed, FromDict, ToDict;
      var before := View(ticket).working;
      var after := Advance(before, seen, policy);
      if before.volume > 0.0 && after.volume != before.volume {
        lockLevels := lockLevels - {ticket};
      }
      Observe(ticket, seen, policy, read);
      Persist(ticket, write);
      state := states[ticket];
    }

    /** The in-memory half: ratchet, and on the first successful read merge with the stored record. */
    method Observe(ticket: int, seen: Reading<Observation>, policy: Reading<Policy>, read: Read)
      modifies this`states, this`persisted, this`loaded
      ensures ticket in states
      ensures View(ticket) == Load(old(View(ticket)), seen, policy, read)
      ensures forall other | other != ticket :: View(other) == old(View(other))
    {
      hide Advance, Merge, Fetch;
      var state := Advance(View(ticket).working, seen, policy);
      if ticket !in loaded && !read.Raised? {
        var stored := Fetch(Record(ticket), read);
        var restored := Advance(stored, seen, policy);
        state := if restored.volume == state.volume then Merge(state, restored) else state;
        loaded := loaded + {ticket};
        persisted := persisted[ticket := stored];
      }
      states := states[ticket := state];
    }

    /** The durable half: write when loaded and changed, and remember only confirmed writes. */
    method Persist(ticket: int, write: Write)
      requires ticket in states
      modifies this`cache, this`persisted
      ensures View(ticket) == Save(old(View(ticket)), write)
      ensures forall other | other != ticket :: View(other) == old(View(other))
      ensures forall key | key != (account, ticket) ::
                (key in cache <==> key in old(cache)) && (key in cache ==> cache[key] == old(cache)[key])
    {
      hide Changed, ToDict;
      var state := states[ticket];
      var confirmed := if ticket in persisted then persisted[ticket] else EMPTY;
      if ticket in loaded && Changed(state, confirmed) {
        if !write.Refused? {
          cache := cache[(account, ticket) := ToDict(state)];
        }
        if write.Confirmed? {
          persisted := persisted[ticket := state];
        }
      }
    }

    /** The process dies and starts again on the same database. */
    method Restart()
      modifies this
      ensures account == old(account) && cache == old(cache)
      ensures forall ticket :: View(ticket) == Restarted(old(View(ticket)))
    {
      states, persisted, loaded, lockLevels := map[], map[], {}, map[];
    }

    /** The main loop sees another account: nothing of the old one is carried over. */
    method ChangeAccount(next: Account)
      modifies this
      ensures account == next && cache == old(cache)
      ensures forall ticket :: var s := View(ticket); s.working == EMPTY && !s.loaded && s.persisted == EMPTY
    {
      account := next;
      states, persisted, loaded, lockLevels := map[], map[], {}, map[];
    }
  }

  // ---------------------------------------------------------------------------------------
  // One cycle, written out
  // ---------------------------------------------------------------------------------------

  predicate IsLarger(x: real, a: real, b: real) { x >= a && x >= b && (x == a || x == b) }

  predicate Combines(s: State, a: State, b: State) {
    && IsLarger(s.peak, a.peak, b.peak) && IsLarger(s.floor, a.floor, b.floor)
    && IsLarger(s.reference, a.reference, b.reference) && s.volume == a.volume
  }

  /** States that differ in floor, size or reference, or by nearly a cent or more in their peaks. */
  predicate Differs(a: State, b: State) {
    || a.floor != b.floor || a.volume != b.volume || a.reference != b.reference
    || a.peak - b.peak >= 0.009999999 || b.peak - a.peak >= 0.009999999
  }

  /** One cycle: the ratchet advances; the first read that does not fail, even one that finds nothing, brings in the
      stored state, advanced by the same observation, if it is of the same size; and once loaded, a state that
      differs from the last confirmed one is written. A write whose outcome is unknown reaches the disk but is not
      taken as confirmed. */
  lemma CycleWrittenOut(slot: Slot, seen: Reading<Observation>, policy: Reading<Policy>, read: Read, write: Write)
    ensures
      var t := Cycle(slot, seen, policy, read, write);
      var restores := !slot.loaded && read != Raised;
      var stored := if read == Answered then FromDict(slot.disk) else State(0.0, 0.0, 0.0, 0.0);
      var now, again := Advance(slot.working, seen, policy), Advance(stored, seen, policy);
      var confirmed := if restores then stored else slot.persisted;
      && t.loaded == (slot.loaded || restores)
      && (if restores && again.volume == now.volume then Combines(t.working, now, again) else t.working == now)
      && var due := t.loaded && Differs(t.working, confirmed);
         && t.disk == (if due && write != Refused then Some(ToDict(t.working)) else slot.disk)
         && t.persisted == (if due && write == Confirmed then t.working else confirmed)
  {
    hide *;
    LoadWrittenOut(slot, seen, policy, read);
    SaveWrittenOut(Load(slot, seen, policy, read), write);
    assert Cycle(slot, seen, policy, read, write) == Save(Load(slot, seen, policy, read), write) by {
      CycleIsLoadAndSave(slot, seen, policy, read, write);
    }
  }

  lemma CycleIsLoadAndSave(
    slot: Slot, seen: Reading<Observation>, policy: Reading<Policy>, read: Read, write: Write)
    ensures Cycle(slot, seen, policy, read, write) == Save(Load(slot, seen, policy, read), write)
  {
    hide Save, Load;
  }

  lemma LoadWrittenOut(slot: Slot, seen: Reading<Observation>, policy: Reading<Policy>, read: Read)
    ensures
      var t := Load(slot, seen, policy, read);
      var restores := !slot.loaded && read != Raised;
      var stored := if read == Answered then FromDict(slot.disk) else State(0.0, 0.0, 0.0, 0.0);
      var now, again := Advance(slot.working, seen, policy), Advance(stored, seen, policy);
      && t.loaded == (slot.loaded || restores) && t.disk == slot.disk
      && t.persisted == (if restores then stored else slot.persisted)
      && (if restores && again.volume == now.volume then Combines(t.working, now, again) else t.working == now)
  {
    assert FromDict(None) == State(0.0, 0.0, 0.0, 0.0);
    hide Advance, FromDict, Merge, Combines;
    if !slot.loaded && read != Raised {
      MergeCombines(
        Advance(slot.working, seen, policy), Advance(Fetch(slot.disk, read), seen, policy));
    }
  }

  lemma MergeCombines(a: State, b: State)
    ensures Combines(Merge(a, b), a, b)
  {
  }

  lemma SaveWrittenOut(slot: Slot, write: Write)
    ensures
      var t := Save(slot, write);
      var due := slot.loaded && Differs(slot.working, slot.persisted);
      && t.working == slot.working && t.loaded == slot.loaded
      && t.disk == (if due && write != Refused then Some(ToDict(slot.working)) else slot.disk)
      && t.persisted == (if due && write == Confirmed then slot.working else slot.persisted)
  {
    DiffersIff(slot.working, slot.persisted);
    hide Changed, Differs, ToDict;
  }

  lemma DiffersIff(a: State, b: State)
    ensures Changed(a, b) <==> Differs(a, b)
  {
  }

  // ---------------------------------------------------------------------------------------
  // Merging
  // ---------------------------------------------------------------------------------------

  predicate Below(a: State, b: State) {
    a.peak <= b.peak && a.floor <= b.floor && a.volume == b.volume && a.reference <= b.reference
  }

  /** Merging what was observed with what was stored gives the least state above both, and it keeps
      the headroom below the peak. */
  lemma MergeIsJoin(a: State, b: State, above: State, p: Policy)
    requires p.Valid() && a.volume == b.volume
    requires Sound(a, p) && Sized(a) && Sound(b, p) && Sized(b)
    ensures Below(a, Merge(a, b)) && Below(b, Merge(a, b))
    ensures Below(a, above) && Below(b, above) ==> Below(Merge(a, b), above)
    ensures Sound(Merge(a, b), p)
  {
    var m := Merge(a, b);
    LowerHeadroom(a, m, p);
    LowerHeadroom(b, m, p);
    hide Headroom;
  }

  lemma LowerHeadroom(a: State, m: State, p: Policy)
    requires p.Valid() && Sized(a) && Below(a, m)
    ensures Headroom(m, p) <= Headroom(a, p)
  {
    ScaleMonotone(0.0, p.headroom, a.volume);
    DivideBySmaller(p.headroom * a.volume, a.reference, m.reference);
  }

  // ---------------------------------------------------------------------------------------
  // The crash and restart protocol
  // ---------------------------------------------------------------------------------------

  /** `persisted` is an earlier state of the same position. */
  predicate Follows(s: State, persisted: State) {
    || persisted == EMPTY
    || s.volume < persisted.volume
    || (s.volume == persisted.volume && s.floor >= persisted.floor && s.peak >= persisted.peak)
  }

  /** States whose position has not grown since: at least `live` lots of at most `bound`. */
  predicate Usual(s: State, p: Policy, live: real, bound: real) {
    s == EMPTY || (Sound(s, p) && Storable(s) && s.volume >= live && s.reference <= bound)
  }

  predicate Invariant(slot: Slot, p: Policy, live: real, bound: real) {
    && p.Valid() && 0.0 < live <= bound
    && Usual(slot.working, p, live, bound)
    && Usual(Durable(slot), p, live, bound)
    && (slot.loaded ==>
          && slot.working.volume > 0.0
          && PerLot(slot.working) >= PerLot(Durable(slot))
          && Follows(slot.working, slot.persisted)
          && (Durable(slot) == slot.persisted || Changed(slot.working, slot.persisted)))
  }

  datatype Event = Tick(seen: Reading<Observation>, read: Read, write: Write) | Crash

  function Step(slot: Slot, event: Event, p: Policy): Slot {
    match event
    case Tick(seen, read, write) => Cycle(slot, seen, Readable(p), read, write)
    case Crash => Restarted(slot)
  }

  function Live(event: Event, p: Policy, live: real): real {
    if event.Tick? && Usable(event.seen, Readable(p)) then event.seen.value.size else live
  }

  /** No addition, no silently missed read, and no unusable input on the cycle that restores. Writes
      may fail in any way, reads may raise, and crashes may come at any point. */
  predicate Ordinary(slot: Slot, event: Event, p: Policy, live: real, bound: real) {
    event.Tick? ==>
      && (Usable(event.seen, Readable(p)) ==> event.seen.value.size <= live && Roomy(p, event.seen.value.size, bound))
      && (slot.loaded || event.read.Raised? || (event.read.Answered? && Usable(event.seen, Readable(p))))
  }

  lemma AdvanceUsual(s: State, seen: Reading<Observation>, p: Policy, live: real, bound: real)
    requires p.Valid() && 0.0 < live <= bound && Usual(s, p, live, bound)
    requires Usable(seen, Readable(p)) && seen.value.size <= live && Roomy(p, seen.value.size, bound)
    ensures
      var t := Advance(s, seen, Readable(p));
      && Usual(t, p, seen.value.size, bound) && t.volume == seen.value.size && Sized(t)
      && PerLot(t) >= PerLot(s)
      && Follows(t, s)
      && (s != EMPTY ==> t.reference == s.reference)
  {
    var size := seen.value.size;
    var reference := Resize(s, size).reference;
    ScaleMonotone(reference, bound, EPSILON);
    AdvanceFields(s, seen, p);
    hide Resize, Observe, BelowPeak;
    AdvanceKeepsSound(s, seen, p);
    AdvanceKeepsStorable(s, seen, p);
    PerLotNeverFalls(s, seen, p);
  }

  lemma AdvanceFields(s: State, seen: Reading<Observation>, p: Policy)
    requires s.floor >= 0.0 && Usable(seen, Readable(p))
    ensures
      var t := Advance(s, seen, Readable(p));
      && t.volume == seen.value.size && t.reference == Resize(s, seen.value.size).reference && t.floor >= 0.0
      && (s.volume == seen.value.size ==> t.floor >= s.floor && t.peak >= s.peak)
  {
    hide PeakFloor, Armed;
  }

  lemma MergeUsual(a: State, b: State, p: Policy, live: real, bound: real)
    requires p.Valid() && Usual(a, p, live, bound) && Usual(b, p, live, bound)
    requires Sized(a) && Sized(b) && a.volume == b.volume
    ensures var m := Merge(a, b); Usual(m, p, live, bound) && PerLot(m) >= PerLot(b)
  {
    MergeIsJoin(a, b, a, p);
    DivideMonotone(b.floor, Merge(a, b).floor, a.volume);
  }

  lemma LoadKeepsInvariant(slot: Slot, event: Event, p: Policy, live: real, bound: real)
    requires Invariant(slot, p, live, bound) && event.Tick? && Ordinary(slot, event, p, live, bound)
    ensures Invariant(Load(slot, event.seen, Readable(p), event.read), p, Live(event, p, live), bound)
  {
    if Usable(event.seen, Readable(p)) {
      hide Sound, Advance, PerLot;
      AdvanceUsual(slot.working, event.seen, p, live, bound);
      if !slot.loaded && !event.read.Raised? {
        AdvanceUsual(Durable(slot), event.seen, p, live, bound);
        MergeUsual(
          Advance(slot.working, event.seen, Readable(p)), Advance(Durable(slot), event.seen, Readable(p)),
          p, event.seen.value.size, bound);
      }
    }
  }

  lemma SaveKeepsInvariant(slot: Slot, write: Write, p: Policy, live: real, bound: real)
    requires Invariant(slot, p, live, bound)
    ensures Invariant(Save(slot, write), p, live, bound)
    ensures PerLot(Durable(Save(slot, write))) >= PerLot(Durable(slot))
  {
    hide Sound, PerLot;
    assert slot.working.volume > 0.0 ==> FromDict(Some(ToDict(slot.working))) == slot.working;
  }

  lemma StepKeepsInvariant(slot: Slot, event: Event, p: Policy, live: real, bound: real)
    requires Invariant(slot, p, live, bound) && Ordinary(slot, event, p, live, bound)
    ensures Invariant(Step(slot, event, p), p, Live(event, p, live), bound)
    ensures PerLot(Durable(Step(slot, event, p))) >= PerLot(Durable(slot))
  {
    if event.Tick? {
      LoadKeepsInvariant(slot, event, p, live, bound);
      hide Invariant, Advance, PerLot, FromDict;
      SaveKeepsInvariant(
        Load(slot, event.seen, Readable(p), event.read), event.write, p, Live(event, p, live), bound);
    }
  }

  function Run(slot: Slot, events: seq<Event>, p: Policy): Slot
    decreases |events|
  {
    if events == [] then slot else Run(Step(slot, events[0], p), events[1..], p)
  }

  predicate OrdinaryRun(slot: Slot, events: seq<Event>, p: Policy, live: real, bound: real)
    decreases |events|
  {
    events == [] ||
    (Ordinary(slot, events[0], p, live, bound) &&
     OrdinaryRun(Step(slot, events[0], p), events[1..], p, Live(events[0], p, live), bound))
  }

  /** Through any ordinary run of ticks, partial closes, failed writes, raising reads and crashes, the
      protection on disk never weakens, and whenever the state is loaded it protects at least as much
      as anything that was durable before: per lot always, in cash whenever the size is the same. */
  lemma {:induction false} DurableFloorSurvives(slot: Slot, events: seq<Event>, p: Policy, live: real, bound: real)
    requires Invariant(slot, p, live, bound) && OrdinaryRun(slot, events, p, live, bound)
    ensures
      var end, was := Run(slot, events, p), Durable(slot);
      && PerLot(Durable(end)) >= PerLot(was)
      && (end.loaded ==> end.working.volume > 0.0 && PerLot(end.working) >= PerLot(was))
      && (end.loaded && end.working.volume == was.volume ==> end.working.floor >= was.floor)
    decreases |events|
  {
    if events != [] {
      StepKeepsInvariant(slot, events[0], p, live, bound);
      hide Invariant, Advance, PerLot, FromDict;
      DurableFloorSurvives(Step(slot, events[0], p), events[1..], p, Live(events[0], p, live), bound);
    }
    CashFromPerLot(Run(slot, events, p).working, Durable(slot));
  }

  lemma CashFromPerLot(a: State, b: State)
    ensures a.volume == b.volume > 0.0 && PerLot(a) >= PerLot(b) ==> a.floor >= b.floor
  {
    if a.volume == b.volume > 0.0 && PerLot(a) >= PerLot(b) {
      ScaleMonotone(PerLot(b), PerLot(a), a.volume);
    }
  }

  /** After a cycle whose write was confirmed, or that had nothing to write, the disk holds the working
      floor and size, and lags the working peak by less than a cent. */
  lemma SuccessfulCycleSavesAllButACent(slot: Slot, event: Event, p: Policy, live: real, bound: real)
    requires Invariant(slot, p, live, bound) && Ordinary(slot, event, p, live, bound)
    requires event.Tick? && event.write.Confirmed? && Step(slot, event, p).loaded
    ensures
      var end := Step(slot, event, p);
      var saved := Durable(end);
      && saved.floor == end.working.floor && saved.volume == end.working.volume
      && saved.reference == end.working.reference
      && 0.0 <= end.working.peak - saved.peak < 0.01
  {
    LoadKeepsInvariant(slot, event, p, live, bound);
    hide Sound, PerLot, Advance;
    var mid := Load(slot, event.seen, Readable(p), event.read);
    assert FromDict(Some(ToDict(mid.working))) == mid.working;
  }

  // ---------------------------------------------------------------------------------------
  // Where the restore does not keep the floor
  // ---------------------------------------------------------------------------------------

  /** The floor that one observation justifies on its own, with nothing remembered. */
  function FreshFloor(o: Observation, p: Policy): real {
    var peak := Max(o.net, 0.0);
    if peak + EPSILON >= p.trigger && (o.risk <= 0.0 || PeakR(peak, o.risk) + EPSILON >= p.triggerR) then
      Max(0.0, FloorToCents(Min(Max(p.cashFloor, Kept(peak, o.risk, p)), peak - p.headroom)))
    else 0.0
  }

  function FreshPerLot(o: Observation, p: Policy): real {
    if o.size > 0.0 then FreshFloor(o, p) / o.size else 0.0
  }

  lemma FreshStart(o: Observation, p: Policy)
    requires o.Valid() && p.Valid()
    ensures Advance(EMPTY, Readable(o), Readable(p)) == State(Max(o.net, 0.0), FreshFloor(o, p), o.size, o.size)
  {
    var base := State(0.0, 0.0, o.size, o.size);
    assert Resize(EMPTY, o.size) == base;
    FullSize(base, p);
    assert RemainingRisk(base, o.risk) == o.risk;
    hide Resize, Milestone, Headroom, RemainingRisk, FloorToCents, Kept, PeakR;
  }

  lemma FreshFloorBounds(o: Observation, p: Policy)
    requires p.Valid()
    ensures FreshFloor(o, p) > 0.0 ==> FreshFloor(o, p) <= o.net - p.headroom + EPSILON
    ensures o.net <= 0.0 ==> FreshFloor(o, p) == 0.0
  {
    var peak := Max(o.net, 0.0);
    FloorToCentsIsLargest(Min(Max(p.cashFloor, Kept(peak, o.risk, p)), peak - p.headroom), 1);
    hide FloorToCents, Kept, PeakR;
  }

  /** The first cycle after a restart: once the ticket counts as loaded, the stored protection is in force
      exactly when the inputs were usable and either the read really answered or the profit of that moment
      justifies as much protection per lot by itself. A swallowed read error restarts from nothing, and the
      next confirmed write makes that durable. */
  lemma RestoreKeepsFloorIff(slot: Slot, event: Event, p: Policy, live: real, bound: real)
    requires Invariant(slot, p, live, bound) && !slot.loaded && slot.working == EMPTY
    requires Durable(slot).floor > 0.0
    requires event.Tick? && !event.read.Raised?
    requires Usable(event.seen, Readable(p)) ==>
               event.seen.value.size <= live && Roomy(p, event.seen.value.size, bound)
    ensures
      var end := Step(slot, event, p);
      && end.loaded
      && (PerLot(end.working) >= PerLot(Durable(slot)) <==>
          && Usable(event.seen, Readable(p))
          && (event.read.Answered? || FreshPerLot(event.seen.value, p) >= PerLot(Durable(slot))))
      && (event.read.Missed? && Usable(event.seen, Readable(p)) && event.write.Confirmed? ==>
            Durable(end).floor == FreshFloor(event.seen.value, p))
  {
    StoredFloorPerLot(slot, p, live, bound);
    var end := Step(slot, event, p);
    if Usable(event.seen, Readable(p)) {
      if event.read.Answered? {
        StepKeepsInvariant(slot, event, p, live, bound);
      } else {
        MissedReadStartsAfresh(slot, event, p);
        FreshStart(event.seen.value, p);
        hide FreshFloor, Advance, Load;
        if event.write.Confirmed? {
          FreshIsStorable(event.seen, p, bound);
        }
      }
    }
  }

  /** A swallowed read leaves exactly what a disk without a record would. */
  lemma MissedReadStartsAfresh(slot: Slot, event: Event, p: Policy)
    requires !slot.loaded && slot.working == EMPTY && event.Tick? && event.read.Missed?
    ensures
      var loaded := Load(slot, event.seen, Readable(p), Missed);
      && loaded == Load(slot.(disk := None), event.seen, Readable(p), Answered).(disk := slot.disk)
      && loaded == Slot(Advance(EMPTY, event.seen, Readable(p)), true, EMPTY, slot.disk)
  {
    hide Advance;
  }

  lemma FreshIsStorable(seen: Reading<Observation>, p: Policy, bound: real)
    requires Usable(seen, Readable(p)) && seen.value.size <= bound && Roomy(p, seen.value.size, bound)
    ensures Storable(Advance(EMPTY, seen, Readable(p)))
  {
    ScaleMonotone(seen.value.size, bound, EPSILON);
    AdvanceTakesSize(EMPTY, seen, p);
    hide Observe;
    AdvanceKeepsStorable(EMPTY, seen, p);
  }

  /** The profit covers this much floor per lot and the headroom besides. */
  predicate Clears(o: Observation, perLot: real, p: Policy) {
    o.net > 0.0 && o.net >= perLot * o.size + p.headroom - EPSILON
  }

  /** What a swallowed read can keep: only a floor that the profit of that moment still clears by the
      headroom; out of profit, nothing. */
  lemma MissedReadKeepsLittle(slot: Slot, event: Event, p: Policy, live: real, bound: real)
    requires Invariant(slot, p, live, bound) && !slot.loaded && slot.working == EMPTY
    requires Durable(slot).floor > 0.0
    requires event.Tick? && event.read.Missed? && Usable(event.seen, Readable(p))
    requires event.seen.value.size <= live && Roomy(p, event.seen.value.size, bound)
    ensures PerLot(Step(slot, event, p).working) >= PerLot(Durable(slot)) ==>
              Clears(event.seen.value, PerLot(Durable(slot)), p)
  {
    var o := event.seen.value;
    assert o.size > 0.0 && p.Valid();
    hide Step, FreshPerLot, Invariant, PerLot, Durable, Roomy, Clears;
    RestoreKeepsFloorIff(slot, event, p, live, bound);
    StoredFloorPerLot(slot, p, live, bound);
    if FreshPerLot(o, p) >= PerLot(Durable(slot)) {
      KeptNeedsProfit(PerLot(Durable(slot)), o, p);
    }
  }

  /** For instance: a floor of 1.30 is stored, the first read after a restart is swallowed while the profit has
      come back to 0.50, and nothing of the floor is left in memory or on disk. */
  lemma SwallowedReadLosesFloor()
    ensures
      var p := Policy(1.5, 1.0, 2.0, 0.65, 0.75, 1.0, 0.2);
      var stored := State(2.0, 1.3, 1.0, 1.0);
      var slot := Slot(EMPTY, false, EMPTY, Some(ToDict(stored)));
      var end := Step(slot, Tick(Readable(Observation(0.5, 1.0, 1.0)), Missed, Confirmed), p);
      && p.Admitted() && Invariant(slot, p, 1.0, 1.0) && Durable(slot) == stored
      && end.loaded && end.working.floor == 0.0 && Durable(end).floor == 0.0
  {
    var p := Policy(1.5, 1.0, 2.0, 0.65, 0.75, 1.0, 0.2);
    var o, stored := Observation(0.5, 1.0, 1.0), State(2.0, 1.3, 1.0, 1.0);
    var slot := Slot(EMPTY, false, EMPTY, Some(ToDict(stored)));
    var event := Tick(Readable(o), Missed, Confirmed);
    assert Headroom(stored, p) == 0.2 && Roomy(p, 1.0, 1.0);
    assert Durable(slot) == stored && Invariant(slot, p, 1.0, 1.0);
    assert FreshFloor(o, p) == 0.0;
    MissedReadStartsAfresh(slot, event, p);
    FreshStart(o, p);
    hide Invariant, Advance, FreshFloor, Durable, Headroom;
    RestoreKeepsFloorIff(slot, event, p, 1.0, 1.0);
    assert Step(slot, event, p).working == Load(slot, event.seen, Readable(p), Missed).working;
  }

  lemma StoredFloorPerLot(slot: Slot, p: Policy, live: real, bound: real)
    requires Invariant(slot, p, live, bound) && Durable(slot).floor > 0.0
    ensures PerLot(Durable(slot)) > 0.0
  {
    PositiveQuotient(Durable(slot).floor, Durable(slot).volume);
  }

  lemma KeptNeedsProfit(perLot: real, o: Observation, p: Policy)
    requires o.size > 0.0 && p.Valid() && 0.0 < perLot <= FreshPerLot(o, p)
    ensures Clears(o, perLot, p)
  {
    var floor := FreshFloor(o, p);
    FreshFloorBounds(o, p);
    hide FreshFloor;
    ScaleMonotone(perLot, floor / o.size, o.size);
    assert floor / o.size * o.size == floor;
    ScalesUp(perLot, o.size);
  }

  lemma PositiveQuotient(x: real, y: real)
    requires x > 0.0 && y > 0.0
    ensures x / y > 0.0
  {
    assert x == x / y * y;
  }
}
