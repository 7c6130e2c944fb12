/** Who may open new trades: arming, autonomy, restarts and account changes (core/engine.py). */
module EntryAuthorization {
  import opened Numbers

  datatype Mode = Demo | Live | OtherMode

  datatype Identity = Identity(login: int, server: string, company: string, tradeMode: int)

  function ModeOf(id: Identity): Mode {
    if id.tradeMode == 0 then Demo else if id.tradeMode == 2 then Live else OtherMode
  }

  /** What the operator typed, after trimming and upper-casing. */
  datatype Phrase = ArmPaper | ArmDemo | ArmLive | EnablePaper | EnableDemo | EnableLive | AnythingElse

  function ArmPhrase(dryRun: bool, id: Identity): Phrase {
    if dryRun then ArmPaper else if ModeOf(id).Live? then ArmLive else ArmDemo
  }

  function EnablePhrase(dryRun: bool, id: Identity): Phrase {
    if dryRun then EnablePaper else if ModeOf(id).Live? then EnableLive else EnableDemo
  }

  /** A stored authorization. The key it is stored under is derived from an account, but two accounts are
      not assumed to have different keys. */
  datatype Record = Record(enabled: bool, identity: Option<Identity>)

  type Key(==, !new)

  datatype Config = Config(dryRun: bool, key: Identity -> Key)

  /** `accepting` is the executor's flag: off from a stop or a core failure until the next start. */
  datatype State = State(
    running: bool, accepting: bool, armed: bool, armedId: Option<Identity>, activeId: Option<Identity>,
    autonomous: bool, autonomousId: Option<Identity>, records: map<Key, Record>)

  /** One step of the engine. `read` is the account the terminal reported during the step; `ready` and
      `healthy` stand for every other check the step makes; `write` is what became of the record. */
  datatype Event =
    | Start(connected: bool, read: Option<Identity>, answered: bool, healthy: bool)
    | Arm(read: Option<Identity>, ready: bool, phrase: Phrase)
    | Enable(read: Option<Identity>, phrase: Phrase, again: Option<Identity>, ready: bool, write: Write)
    | Disable(read: Option<Identity>, write: Write)
    | Tick(failed: bool, modelReady: bool, read: Option<Identity>, healthy: bool)
    | Observe(read: Option<Identity>)
    | Lock
    | Fail
    | Stop

  function Disarmed(s: State): State { s.(armed := false, armedId := None) }

  function DisarmedIfArmed(s: State): State { if s.armed then Disarmed(s) else s }

  function ArmedFor(s: State, id: Identity): State { s.(armed := true, armedId := Some(id)) }

  predicate ArmAccepted(s: State, c: Config, read: Option<Identity>, ready: bool, phrase: Phrase) {
    s.running && read.Some? && !ModeOf(read.value).OtherMode? && ready && phrase == ArmPhrase(c.dryRun, read.value)
  }

  predicate EnableAccepted(s: State, c: Config, e: Event)
    requires e.Enable?
  {
    && s.running && e.read.Some? && !ModeOf(e.read.value).OtherMode? && e.phrase == EnablePhrase(c.dryRun, e.read.value)
    && ArmAccepted(s, c, e.again, e.ready, ArmPhrase(c.dryRun, e.read.value))
  }

  /** The account has its own enabled record, and the storage read found it. */
  predicate Restorable(s: State, c: Config, id: Identity, answered: bool) {
    answered && c.key(id) in s.records && s.records[c.key(id)] == Record(true, Some(id))
  }

  function Restored(s: State, c: Config, id: Identity, answered: bool, healthy: bool): State {
    if !Restorable(s, c, id, answered) then s.(autonomous := false, autonomousId := None)
    else
      var t := s.(autonomous := true, autonomousId := Some(id));
      if healthy then ArmedFor(t, id) else Disarmed(t)
  }

  /** The account whose record a disable clears. */
  function DisabledAccount(s: State, read: Option<Identity>): Option<Identity> {
    if read.Some? then read else s.autonomousId
  }

  function Disabled(s: State, c: Config, read: Option<Identity>, write: Write): State {
    var account := DisabledAccount(s, read);
    var records :=
      if account.Some? && !write.Refused? then s.records[c.key(account.value) := Record(false, None)] else s.records;
    Disarmed(s.(autonomous := false, autonomousId := None, records := records))
  }

  function Ticked(s: State, modelReady: bool, read: Option<Identity>, healthy: bool): State {
    var t := if !modelReady then DisarmedIfArmed(s) else s;
    if !t.autonomous then t
    else if read.None? || read != t.autonomousId || !healthy || !modelReady then DisarmedIfArmed(t)
    else if t.armed then t
    else ArmedFor(t, read.value)
  }

  /** The engine's loops run; a core failure cancels them together with the executor's work. */
  predicate Looping(s: State) { s.running && s.accepting }

  predicate Changes(s: State, read: Option<Identity>) {
    read.Some? && s.activeId.Some? && read != s.activeId
  }

  function Step(s: State, c: Config, e: Event): State {
    match e
    case Start(connected, read, answered, healthy) =>
      if s.running then s
      else
        var t := Disarmed(s).(accepting := true);
        if !connected || read.None? then t
        else Restored(t.(running := true, activeId := read), c, read.value, answered, healthy)
    case Arm(read, ready, phrase) =>
      if ArmAccepted(s, c, read, ready, phrase) then ArmedFor(s, read.value) else s
    case Enable(read, _, again, _, write) =>
      if !EnableAccepted(s, c, e) then s
      else
        var t := if write.Refused? then s else s.(records := s.records[c.key(read.value) := Record(true, read)]);
        if write.Confirmed? then ArmedFor(t, again.value).(autonomous := true, autonomousId := read) else Disarmed(t)
    case Disable(read, write) => Disabled(s, c, read, write)
    case Tick(failed, modelReady, read, healthy) =>
      if !Looping(s) then s else if failed then DisarmedIfArmed(s) else Ticked(s, modelReady, read, healthy)
    case Observe(read) =>
      if !Looping(s) || read.None? then s
      else (if Changes(s, read) then Disarmed(s).(autonomous := false, autonomousId := None) else s).(activeId := read)
    case Lock => Disarmed(s)
    case Fail => if s.running then Disarmed(s).(accepting := false) else s
    case Stop => if s.running then Disarmed(s).(running := false, accepting := false) else s
  }

  class TradingEngine {
    const config: Config
    var isRunning: bool
    var executorAccepting: bool
    var entriesArmed: bool
    var armedIdentity: Option<Identity>
    var activeIdentity: Option<Identity>
    var autonomousEnabled: bool
    var autonomousIdentity: Option<Identity>
    /** Stored authorizations, which survive the process. */
    var records: map<Key, Record>

    function View(): State
      reads this
    {
      State(
        isRunning, executorAccepting, entriesArmed, armedIdentity, activeIdentity, autonomousEnabled,
        autonomousIdentity, records)
    }

    /** A new process: paper trading may start armed, but the engine is not running. */
    constructor (config: Config, armPaper: bool, records: map<Key, Record>)
      ensures this.config == config
      ensures View() == State(false, true, armPaper && config.dryRun, None, None, false, None, records)
    {
      this.config := config;
      isRunning, executorAccepting, entriesArmed := false, true, armPaper && config.dryRun;
      armedIdentity, activeIdentity, autonomousIdentity := None, None, None;
      autonomousEnabled := false;
      this.records := records;
    }

    method DisarmEntries()
      modifies this
      ensures View() == Step(old(View()), config, Lock)
    {
      entriesArmed, armedIdentity := false, None;
    }

    method StartEngine(connected: bool, read: Option<Identity>, answered: bool, healthy: bool) returns (started: bool)
      modifies this
      ensures View() == Step(old(View()), config, Start(connected, read, answered, healthy))
      ensures started == isRunning
    {
      if isRunning {
        return true;
      }
      entriesArmed, armedIdentity := false, None;
      executorAccepting := true;
      if !connected || read.None? {
        return false;
      }
      activeIdentity := read;
      isRunning := true;
      RestoreAuthorization(read.value, answered, healthy);
      return true;
    }

    method RestoreAuthorization(id: Identity, answered: bool, healthy: bool)
      modifies this
      ensures View() == Restored(old(View()), config, id, answered, healthy)
    {
      var key := config.key(id);
      var stored := if answered && key in records then Some(records[key]) else None;
      if stored.None? || !stored.value.enabled || stored.value.identity != Some(id) {
        autonomousEnabled, autonomousIdentity := false, None;
        return;
      }
      autonomousEnabled, autonomousIdentity := true, Some(id);
      if healthy {
        ActivateEntries(id);
      } else {
        entriesArmed, armedIdentity := false, None;
      }
    }

    method ActivateEntries(id: Identity)
      modifies this
      ensures View() == ArmedFor(old(View()), id)
    {
      entriesArmed, armedIdentity := true, Some(id);
    }

    method ArmEntries(read: Option<Identity>, ready: bool, phrase: Phrase) returns (ok: bool)
      modifies this
      ensures View() == Step(old(View()), config, Arm(read, ready, phrase))
      ensures ok == ArmAccepted(old(View()), config, read, ready, phrase)
    {
      ok := false;
      if isRunning && read.Some? && !ModeOf(read.value).OtherMode? && ready {
        if phrase == ArmPhrase(config.dryRun, read.value) {
          entriesArmed, armedIdentity := true, read;
          ok := true;
        }
      }
    }

    /** Reads the account, checks the phrase, then arms, which reads the account again. */
    method EnableAutonomousMode(
      read: Option<Identity>, phrase: Phrase, again: Option<Identity>, ready: bool, write: Write) returns (ok: bool)
      modifies this
      ensures View() == Step(old(View()), config, Enable(read, phrase, again, ready, write))
    {
      if !isRunning || read.None? || ModeOf(read.value).OtherMode? {
        return false;
      }
      if phrase != EnablePhrase(config.dryRun, read.value) {
        return false;
      }
      ok := ArmEntries(again, ready, ArmPhrase(config.dryRun, read.value));
      if !ok {
        return;
      }
      if !write.Refused? {
        records := records[config.key(read.value) := Record(true, read)];
      }
      if !write.Confirmed? {
        DisarmEntries();
        return false;
      }
      autonomousEnabled, autonomousIdentity := true, read;
    }

    method DisableAutonomousMode(read: Option<Identity>, write: Write)
      modifies this
      ensures View() == Step(old(View()), config, Disable(read, write))
    {
      var account := if read.Some? then read else autonomousIdentity;
      if account.Some? && !write.Refused? {
        records := records[config.key(account.value) := Record(false, None)];
      }
      autonomousEnabled, autonomousIdentity := false, None;
      DisarmEntries();
    }

    method HealthTick(failed: bool, modelReady: bool, read: Option<Identity>, healthy: bool)
      modifies this
      ensures View() == Step(old(View()), config, Tick(failed, modelReady, read, healthy))
    {
      if !isRunning || !executorAccepting {
        return;
      }
      if (failed || !modelReady) && entriesArmed {
        DisarmEntries();
      }
      if failed || !autonomousEnabled {
        return;
      }
      if read.None? || read != autonomousIdentity || !healthy || !modelReady {
        if entriesArmed {
          DisarmEntries();
        }
      } else if !entriesArmed {
        ActivateEntries(read.value);
      }
    }

    /** The main loop reads the account: a change is acted on before the new identity is adopted. */
    method ObserveAccount(read: Option<Identity>)
      modifies this
      ensures View() == Step(old(View()), config, Observe(read))
    {
      if !isRunning || !executorAccepting || read.None? {
        return;
      }
      if activeIdentity.Some? && read != activeIdentity {
        DisarmEntries();
        autonomousEnabled, autonomousIdentity := false, None;
      }
      activeIdentity := read;
    }

    method StopEngine()
      modifies this
      ensures View() == Step(old(View()), config, Stop)
    {
      if isRunning {
        DisarmEntries();
        executorAccepting := false;
        isRunning := false;
      }
    }

    /** A core loop ended unexpectedly; the engine counts as running until the stop that follows. */
    method CoreTaskFinished()
      modifies this
      ensures View() == Step(old(View()), config, Fail)
    {
      if isRunning {
        entriesArmed, armedIdentity := false, None;
        executorAccepting := false;
      }
    }
  }

  // ---------------------------------------------------------------------------------------
  // Steps written out
  // ---------------------------------------------------------------------------------------

  /** A demo or a real account; contest accounts and unknown modes are neither. */
  predicate Tradable(read: Option<Identity>) { read.Some? && (read.value.tradeMode == 0 || read.value.tradeMode == 2) }

  /** Arming is accepted exactly for a tradable account with the phrase of its own mode, and gives entries to the
      account that was read. */
  lemma ArmIff(s: State, c: Config, read: Option<Identity>, ready: bool, phrase: Phrase)
    ensures
      Step(s, c, Arm(read, ready, phrase))
        == if s.running && ready && Tradable(read)
              && phrase == (if c.dryRun then ArmPaper else if read.value.tradeMode == 0 then ArmDemo else ArmLive) then
             s.(armed := true, armedId := read)
           else s
  {
  }

  /** Enabling autonomy is accepted exactly for a tradable account with its own phrase, if the account read
      second is tradable too and, outside paper trading, of the same mode. A durable write stores the record of
      the first account; a confirmed one also gives it autonomy, and entries to the second. */
  lemma EnableIff(
    s: State, c: Config, read: Option<Identity>, phrase: Phrase, again: Option<Identity>, ready: bool, write: Write)
    ensures
      var accepted :=
        && s.running && Tradable(read)
        && phrase == (if c.dryRun then EnablePaper else if read.value.tradeMode == 0 then EnableDemo else EnableLive)
        && ready && Tradable(again) && (c.dryRun || again.value.tradeMode == read.value.tradeMode);
      var t := Step(s, c, Enable(read, phrase, again, ready, write));
      if !accepted then t == s
      else
        match write
        case Refused => t == s.(armed := false, armedId := None)
        case Unconfirmed =>
          t == s.(armed := false, armedId := None, records := s.records[c.key(read.value) := Record(true, read)])
        case Confirmed =>
          t == s.(
            armed := true, armedId := again, autonomous := true, autonomousId := read,
            records := s.records[c.key(read.value) := Record(true, read)])
  {
  }

  /** Starting when stopped: the executor accepts work and entries are disarmed in any case; with an account, the
      engine runs, and its own enabled record gives it autonomy, and entries too if it is healthy. */
  lemma StartIff(s: State, c: Config, connected: bool, read: Option<Identity>, answered: bool, healthy: bool)
    ensures
      var t := Step(s, c, Start(connected, read, answered, healthy));
      if s.running then t == s
      else if !connected || read == None then t == s.(accepting := true, armed := false, armedId := None)
      else
        var id := read.value;
        var own := answered && c.key(id) in s.records && s.records[c.key(id)] == Record(true, Some(id));
        t == State(
          true, true, own && healthy, if own && healthy then Some(id) else None, Some(id),
          own, if own then Some(id) else None, s.records)
  {
  }

  /** Disabling: nothing is in force afterwards, and a durable write clears the record of the account that was
      read, or of the authorized one if none was read. */
  lemma DisableIff(s: State, c: Config, read: Option<Identity>, write: Write)
    ensures
      var t := Step(s, c, Disable(read, write));
      var account := match read case Some(id) => Some(id) case None => s.autonomousId;
      t == s.(
        armed := false, armedId := None, autonomous := false, autonomousId := None,
        records := if account == None || write == Refused then s.records
                   else s.records[c.key(account.value) := Record(false, None)])
  {
  }

  /** A health tick of a running engine disarms armed entries if it fails, the model is not ready, or autonomy is on
      and the account is another or unhealthy; and otherwise arms the authorized account if autonomy is on and
      entries are off. */
  lemma TickIff(s: State, c: Config, failed: bool, modelReady: bool, read: Option<Identity>, healthy: bool)
    ensures
      var t := Step(s, c, Tick(failed, modelReady, read, healthy));
      var bad := failed || !modelReady || (s.autonomous && (read == None || read != s.autonomousId || !healthy));
      t == if !s.running || !s.accepting then s
           else if bad then (if s.armed then s.(armed := false, armedId := None) else s)
           else if s.autonomous && !s.armed then s.(armed := true, armedId := read)
           else s
  {
  }

  /** The main loop adopts the account it reads; a change from the account before leaves nothing in force. */
  lemma ObserveIff(s: State, c: Config, read: Option<Identity>)
    ensures
      var t := Step(s, c, Observe(read));
      t == if !s.running || !s.accepting || read == None then s
           else if s.activeId == None || s.activeId == read then s.(activeId := read)
           else s.(armed := false, armedId := None, autonomous := false, autonomousId := None, activeId := read)
  {
  }

  /** Locking disarms; a core failure also shuts the executor; a stop also ends the engine. */
  lemma ShutdownsWrittenOut(s: State, c: Config)
    ensures Step(s, c, Lock) == s.(armed := false, armedId := None)
    ensures Step(s, c, Fail)
         == if s.running then s.(armed := false, armedId := None, accepting := false) else s
    ensures Step(s, c, Stop)
         == if s.running then s.(armed := false, armedId := None, accepting := false, running := false) else s
  {
  }

  // ---------------------------------------------------------------------------------------
  // Runs, and who was given authority in them
  // ---------------------------------------------------------------------------------------

  function Run(s: State, c: Config, events: seq<Event>): State {
    if events == [] then s
    else
      var n := |events| - 1;
      Step(Run(s, c, events[..n]), c, events[n])
  }

  lemma RunAppend(s: State, c: Config, events: seq<Event>, e: Event)
    ensures Run(s, c, events + [e]) == Step(Run(s, c, events), c, e)
  {
    assert (events + [e])[..|events|] == events;
  }

  predicate WellBound(s: State) {
    s.running ==>
      s.activeId.Some? && (s.armed <==> s.armedId.Some?) && (s.autonomous ==> s.autonomousId.Some?)
  }

  lemma {:induction false} RunIsWellBound(s: State, c: Config, events: seq<Event>)
    requires WellBound(s)
    ensures WellBound(Run(s, c, events))
  {
    if events != [] {
      var n := |events| - 1;
      RunIsWellBound(s, c, events[..n]);
      StepIsWellBound(Run(s, c, events[..n]), c, events[n]);
      hide Step, WellBound;
    }
  }

  lemma StepIsWellBound(s: State, c: Config, e: Event)
    requires WellBound(s)
    ensures WellBound(Step(s, c, e))
  {
  }

  predicate HoldsEntries(s: State, id: Identity) { s.armed && s.armedId == Some(id) }

  predicate HoldsAutonomy(s: State, id: Identity) { s.autonomous && s.autonomousId == Some(id) }

  /** What an account can be given: entries armed by its own phrase, or autonomy. */
  datatype Power = Entries | Autonomy

  predicate ConfirmedEnable(s: State, c: Config, e: Event) {
    e.Enable? && EnableAccepted(s, c, e) && e.write.Confirmed?
  }

  /** The account's own arming phrase was accepted while it was read; or autonomy was asked for by phrase
      while it was read; or the engine started on it and found its own enabled record. */
  predicate Grants(s: State, c: Config, e: Event, id: Identity, power: Power) {
    match power
    case Entries => e.Arm? && ArmAccepted(s, c, e.read, e.ready, e.phrase) && e.read == Some(id)
    case Autonomy =>
      || (ConfirmedEnable(s, c, e) && e.read == Some(id))
      || (e.Start? && !s.running && e.connected && e.read == Some(id) && Restorable(s, c, id, e.answered))
  }

  /** The step disarms entries, or arms them for an account that did not hold them. */
  predicate Displaces(s: State, c: Config, e: Event) {
    match e
    case Start(_, _, _, _) => !s.running
    case Arm(read, ready, phrase) => ArmAccepted(s, c, read, ready, phrase) && read != s.armedId
    case Enable(_, _, again, _, write) => EnableAccepted(s, c, e) && !(write.Confirmed? && again == s.armedId)
    case Tick(failed, modelReady, read, healthy) =>
      Looping(s) && (failed || !modelReady || (s.autonomous && (read != s.autonomousId || !healthy)))
    case Observe(read) => Looping(s) && Changes(s, read)
    case _ => true
  }

  /** The step takes autonomy away, or gives it to another account. */
  predicate Revokes(s: State, c: Config, e: Event, id: Identity) {
    match e
    case Start(_, _, _, _) => !s.running
    case Enable(read, _, _, _, _) => ConfirmedEnable(s, c, e) && read != Some(id)
    case Disable(_, _) => true
    case Observe(read) => Looping(s) && Changes(s, read)
    case _ => false
  }

  predicate Ends(s: State, c: Config, e: Event, id: Identity, power: Power) {
    match power
    case Entries => Displaces(s, c, e)
    case Autonomy => Revokes(s, c, e, id)
  }

  ghost predicate GrantedAt(s: State, c: Config, events: seq<Event>, id: Identity, power: Power, i: nat) {
    && i < |events| && Grants(Run(s, c, events[..i]), c, events[i], id, power)
    && forall j | i < j < |events| :: !Ends(Run(s, c, events[..j]), c, events[j], id, power)
  }

  /** Some step of the run gave this account this power, and nothing since ended it. */
  ghost predicate Traceable(s: State, c: Config, events: seq<Event>, id: Identity, power: Power) {
    exists i: nat :: GrantedAt(s, c, events, id, power, i)
  }

  lemma TraceableStep(s: State, c: Config, events: seq<Event>, e: Event, id: Identity, power: Power)
    ensures
      var mid := Run(s, c, events);
      Traceable(s, c, events + [e], id, power) <==>
        Grants(mid, c, e, id, power) || (Traceable(s, c, events, id, power) && !Ends(mid, c, e, id, power))
  {
    var n, longer := |events|, events + [e];
    hide Grants, Ends, Run;
    assert longer[..n] == events;
    assert forall j | 0 <= j < n :: longer[..j] == events[..j] && longer[j] == events[j];
    if Grants(Run(s, c, events), c, e, id, power) {
      assert GrantedAt(s, c, longer, id, power, n);
    } else if Traceable(s, c, events, id, power) && !Ends(Run(s, c, events), c, e, id, power) {
      var i: nat :| GrantedAt(s, c, events, id, power, i);
      assert GrantedAt(s, c, longer, id, power, i);
    }
    if Traceable(s, c, longer, id, power) && !Grants(Run(s, c, events), c, e, id, power) {
      var i: nat :| GrantedAt(s, c, longer, id, power, i);
      assert GrantedAt(s, c, events, id, power, i);
    }
  }

  lemma NothingTraceableYet(s: State, c: Config, id: Identity, power: Power)
    ensures !Traceable(s, c, [], id, power)
  {
  }

  // ---------------------------------------------------------------------------------------
  // Authorization never transfers
  // ---------------------------------------------------------------------------------------

  lemma AutonomyStep(s: State, c: Config, e: Event, id: Identity)
    requires WellBound(s)
    ensures
      var t := Step(s, c, e);
      t.running ==>
        (HoldsAutonomy(t, id) <==>
         Grants(s, c, e, id, Autonomy) || (s.running && HoldsAutonomy(s, id) && !Revokes(s, c, e, id)))
  {
  }

  /** Over every run, while the engine runs, an account holds autonomy exactly when its own enable phrase was
      accepted while it was read, or its own record was found at the start, and nothing since ended that. */
  lemma {:induction false} AutonomyNeverTransfers(s: State, c: Config, events: seq<Event>, id: Identity)
    requires !s.running
    ensures
      var end := Run(s, c, events);
      end.running ==> (HoldsAutonomy(end, id) <==> Traceable(s, c, events, id, Autonomy))
  {
    if events != [] {
      var n := |events| - 1;
      var before, e := events[..n], events[n];
      AutonomyNeverTransfers(s, c, before, id);
      RunIsWellBound(s, c, before);
      var mid := Run(s, c, before);
      assert events == before + [e];
      RunAppend(s, c, before, e);
      AutonomyStep(mid, c, e, id);
      TraceableStep(s, c, before, e, id, Autonomy);
      if !mid.running && Step(mid, c, e).running { assert Revokes(mid, c, e, id); }
    }
  }

  /** The account may place entries: its own phrase armed them, or it holds autonomy. */
  ghost predicate Authorized(s: State, c: Config, events: seq<Event>, id: Identity) {
    Traceable(s, c, events, id, Entries) || Traceable(s, c, events, id, Autonomy)
  }

  /** Wherever an enable read two different accounts, the second was already armed by its own phrase. */
  ghost predicate EnablesAgree(s: State, c: Config, events: seq<Event>) {
    forall i: nat | i < |events| && ConfirmedEnable(Run(s, c, events[..i]), c, events[i]) ::
      events[i].read == events[i].again || Traceable(s, c, events[..i], events[i].again.value, Entries)
  }

  lemma EntriesStep(s: State, c: Config, e: Event)
    requires WellBound(s)
    ensures
      var t := Step(s, c, e);
      t.running && t.armed ==>
        var id := t.armedId.value;
        || Grants(s, c, e, id, Entries) || Grants(s, c, e, id, Autonomy)
        || (s.running && HoldsEntries(s, id) && !Displaces(s, c, e) && (e.Enable? || !Revokes(s, c, e, id)))
        || (s.running && HoldsAutonomy(s, id) && !Revokes(s, c, e, id))
        || (ConfirmedEnable(s, c, e) && e.again == Some(id))
  {
  }

  /** An arming that nothing displaced is still in force. */
  lemma {:induction false} ArmedStaysArmed(s: State, c: Config, events: seq<Event>, id: Identity)
    requires !s.running && Traceable(s, c, events, id, Entries)
    ensures var end := Run(s, c, events); end.running && HoldsEntries(end, id)
  {
    if events == [] {
      NothingTraceableYet(s, c, id, Entries);
    } else {
      var n := |events| - 1;
      var before, e := events[..n], events[n];
      assert events == before + [e];
      RunIsWellBound(s, c, before);
      RunAppend(s, c, before, e);
      TraceableStep(s, c, before, e, id, Entries);
      if !Grants(Run(s, c, before), c, e, id, Entries) {
        hide Run, Step, Traceable, Grants, Displaces;
        ArmedStaysArmed(s, c, before, id);
        StepHolds(Run(s, c, before), c, e);
      }
    }
  }

  /** Exactly the displacing steps change for whom entries are armed. */
  lemma StepHolds(s: State, c: Config, e: Event)
    requires WellBound(s) && s.running && s.armed
    ensures
      var t := Step(s, c, e);
      && (t.armedId == s.armedId <==> !Displaces(s, c, e))
      && (!Displaces(s, c, e) ==> t.running && t.armed)
  {
  }

  /** Over every run whose enables agree, entries are armed only for an account that its own phrase or its
      own record authorized; and an arming that nothing displaced is in force. */
  lemma {:induction false} EntriesNeverTransfer(s: State, c: Config, events: seq<Event>)
    requires !s.running && EnablesAgree(s, c, events)
    ensures
      var end := Run(s, c, events);
      end.running ==>
        && end.activeId.Some? && (end.armed <==> end.armedId.Some?)
        && (end.armed ==> Authorized(s, c, events, end.armedId.value))
  {
    RunIsWellBound(s, c, events);
    if events != [] && Run(s, c, events).running && Run(s, c, events).armed {
      var n := |events| - 1;
      var before, e := events[..n], events[n];
      assert events == before + [e];
      var mid, id := Run(s, c, before), Run(s, c, events).armedId.value;
      PrefixAgrees(s, c, events, n);
      EntriesNeverTransfer(s, c, before);
      RunIsWellBound(s, c, before);
      RunAppend(s, c, before, e);
      EntriesStep(mid, c, e);
      TraceableStep(s, c, before, e, id, Entries);
      TraceableStep(s, c, before, e, id, Autonomy);
      AutonomyNeverTransfers(s, c, before, id);
      hide Run, Traceable, Step;
      if ConfirmedEnable(mid, c, e) && e.again == Some(id) && e.read != e.again {
        assert Traceable(s, c, before, id, Entries);
        ArmedStaysArmed(s, c, before, id);
      }
    }
  }

  /** The moment after each step of the run, entries are armed only for an authorized account. */
  ghost predicate EntriesTraceable(s: State, c: Config, events: seq<Event>) {
    forall k: nat | k <= |events| ::
      var t := Run(s, c, events[..k]);
      t.running && t.armed ==> t.armedId.Some? && Authorized(s, c, events[..k], t.armedId.value)
  }

  /** Entries never transfer during a run exactly when each of its enables read one account twice, or read
      second an account that was already armed by its own phrase. */
  lemma EntriesNeverTransferIff(s: State, c: Config, events: seq<Event>)
    requires !s.running
    ensures EntriesTraceable(s, c, events) <==> EnablesAgree(s, c, events)
  {
    if EnablesAgree(s, c, events) {
      forall k: nat | k <= |events|
        ensures var t := Run(s, c, events[..k]);
                t.running && t.armed ==> t.armedId.Some? && Authorized(s, c, events[..k], t.armedId.value)
      {
        PrefixAgrees(s, c, events, k);
        EntriesNeverTransfer(s, c, events[..k]);
        hide Run, Authorized, EnablesAgree;
      }
    }
    hide EnableAccepted;
    if EntriesTraceable(s, c, events) {
      forall i: nat | i < |events| && ConfirmedEnable(Run(s, c, events[..i]), c, events[i])
        ensures events[i].read == events[i].again || Traceable(s, c, events[..i], events[i].again.value, Entries)
      {
        assert events[..i + 1] == events[..i] + [events[i]];
        RunAppend(s, c, events[..i], events[i]);
        hide Run;
        SecondReadAuthorized(s, c, events[..i], events[i]);
      }
    }
  }

  lemma PrefixAgrees(s: State, c: Config, events: seq<Event>, k: nat)
    requires EnablesAgree(s, c, events) && k <= |events|
    ensures EnablesAgree(s, c, events[..k])
  {
    hide Run, Traceable, EnableAccepted;
    forall i: nat | i < k ensures events[..k][..i] == events[..i] && events[..k][i] == events[i] {
    }
  }

  /** An enable binds entries to the second account it read and autonomy to the first: one account exactly
      when both reads agree, and outside paper trading at least one kind of account. */
  lemma SecondReadAuthorized(s: State, c: Config, before: seq<Event>, e: Event)
    requires ConfirmedEnable(Run(s, c, before), c, e)
    ensures var t := Step(Run(s, c, before), c, e);
            && t.running && t.armed && t.autonomous && t.armedId == e.again && t.autonomousId == e.read
            && (t.armedId == t.autonomousId <==> e.read == e.again)
            && (!c.dryRun ==> e.read.value.tradeMode == e.again.value.tradeMode)
    ensures e.again.Some? && (Authorized(s, c, before + [e], e.again.value) ==>
              e.read == e.again || Traceable(s, c, before, e.again.value, Entries))
  {
    var mid := Run(s, c, before);
    assert e.again.Some? && !Grants(mid, c, e, e.again.value, Entries);
    assert e.read != e.again ==> Revokes(mid, c, e, e.again.value) && !Grants(mid, c, e, e.again.value, Autonomy);
    hide Run, Traceable;
    TraceableStep(s, c, before, e, e.again.value, Entries);
    TraceableStep(s, c, before, e, e.again.value, Autonomy);
  }

  /** The failing case: the operator types the phrase for one demo account, the terminal shows another at
      the second read, and entries are armed for an account that nobody authorized. */
  lemma SecondReadTransfersEntries(c: Config)
    requires !c.dryRun
    ensures
      var (a, b) := (Identity(1, "", "", 0), Identity(2, "", "", 0));
      var start := State(false, true, false, None, None, false, None, map[]);
      var events := [
        Start(true, Some(a), true, true), Enable(Some(a), EnableDemo, Some(b), true, Confirmed)];
      && HoldsEntries(Run(start, c, events), b) && HoldsAutonomy(Run(start, c, events), a)
      && !Authorized(start, c, events, b)
  {
    var (a, b) := (Identity(1, "", "", 0), Identity(2, "", "", 0));
    var start := State(false, true, false, None, None, false, None, map[]);
    var first, second := Start(true, Some(a), true, true), Enable(Some(a), EnableDemo, Some(b), true, Confirmed);
    RunTwo(start, c, first, second);
    var started := State(true, true, false, None, Some(a), false, None, map[]);
    assert Step(start, c, first) == started;
    assert HoldsEntries(Step(started, c, second), b) && HoldsAutonomy(Step(started, c, second), a);
    forall power: Power ensures !Traceable(start, c, [first, second], b, power) {
      assert [first, second] == [first] + [second] && [first] == [] + [first];
      NothingTraceableYet(start, c, b, power);
      TraceableStep(start, c, [], first, b, power);
      TraceableStep(start, c, [first], second, b, power);
      assert !Grants(start, c, first, b, power) && !Grants(started, c, second, b, power);
      hide Run, Step, Grants, Ends, Traceable;
    }
    hide Run, Step;
  }

  /** An observed account change leaves nothing in force, and whatever is in force later was authorized
      again after the change. */
  lemma ChangeForcesReauthorization(
    s: State, c: Config, before: seq<Event>, read: Option<Identity>, after: seq<Event>, id: Identity, power: Power)
    requires !s.running && Looping(Run(s, c, before)) && Changes(Run(s, c, before), read)
    ensures
      var seen := Run(s, c, before + [Observe(read)]);
      !seen.armed && seen.armedId.None? && !seen.autonomous && seen.autonomousId.None? && seen.activeId == read
    ensures
      var events := before + [Observe(read)] + after;
      forall i: nat :: GrantedAt(s, c, events, id, power, i) ==> i > |before|
  {
    var e := Observe(read);
    var events := before + [e] + after;
    RunAppend(s, c, before, e);
    assert events[..|before|] == before && events[|before|] == e;
    assert Ends(Run(s, c, before), c, e, id, power);
  }

  // ---------------------------------------------------------------------------------------
  // Stored authorizations
  // ---------------------------------------------------------------------------------------

  /** The step durably stores an enabled record of this account. */
  predicate Stores(s: State, c: Config, e: Event, id: Identity) {
    e.Enable? && EnableAccepted(s, c, e) && e.read == Some(id) && !e.write.Refused?
  }

  /** The step durably writes some record under this key. */
  predicate Overwrites(s: State, c: Config, e: Event, key: Key) {
    || (e.Enable? && EnableAccepted(s, c, e) && !e.write.Refused? && c.key(e.read.value) == key)
    || (e.Disable? && !e.write.Refused? && DisabledAccount(s, e.read).Some?
        && c.key(DisabledAccount(s, e.read).value) == key)
  }

  ghost predicate StoredAt(s: State, c: Config, events: seq<Event>, id: Identity, i: nat) {
    && i < |events| && Stores(Run(s, c, events[..i]), c, events[i], id)
    && Untouched(s, c, events, c.key(id), i + 1)
  }

  /** No step from a given one on writes under the key. */
  ghost predicate Untouched(s: State, c: Config, events: seq<Event>, key: Key, from: nat) {
    forall j: nat | from <= j < |events| :: !Overwrites(Run(s, c, events[..j]), c, events[j], key)
  }

  predicate HasRecord(s: State, c: Config, id: Identity) { Restorable(s, c, id, true) }

  lemma RecordStep(s: State, c: Config, e: Event, id: Identity)
    ensures HasRecord(Step(s, c, e), c, id) <==>
              Stores(s, c, e, id) || (HasRecord(s, c, id) && !Overwrites(s, c, e, c.key(id)))
  {
  }

  /** Over every run, an account has an enabled record exactly when an accepted enable that read this account
      was the last durable write under its key, or there was none and it had one to begin with. */
  lemma {:induction false} EnabledRecordIff(s: State, c: Config, events: seq<Event>, id: Identity)
    ensures HasRecord(Run(s, c, events), c, id) <==>
              || (exists i: nat :: StoredAt(s, c, events, id, i))
              || (HasRecord(s, c, id) && Untouched(s, c, events, c.key(id), 0))
  {
    if events != [] {
      var n := |events| - 1;
      var before, e := events[..n], events[n];
      assert events == before + [e];
      EnabledRecordIff(s, c, before, id);
      RunAppend(s, c, before, e);
      RecordStep(Run(s, c, before), c, e, id);
      UntouchedStep(s, c, before, e, c.key(id), 0);
      StoredStep(s, c, before, e, id);
      hide Run, Stores, Overwrites, HasRecord, Step, StoredAt, Untouched;
    }
  }

  lemma UntouchedStep(s: State, c: Config, before: seq<Event>, e: Event, key: Key, from: nat)
    ensures from <= |before| ==>
              (Untouched(s, c, before + [e], key, from) <==>
               Untouched(s, c, before, key, from) && !Overwrites(Run(s, c, before), c, e, key))
    ensures Untouched(s, c, before + [e], key, |before| + 1)
  {
    hide Run, Overwrites;
    var n, events := |before|, before + [e];
    assert events[..n] == before && events[n] == e;
    assert forall j: nat | j < n :: before[..j] == events[..j] && before[j] == events[j];
  }

  lemma StoredStep(s: State, c: Config, before: seq<Event>, e: Event, id: Identity)
    ensures
      var mid := Run(s, c, before);
      (exists i: nat :: StoredAt(s, c, before + [e], id, i)) <==>
        || Stores(mid, c, e, id)
        || ((exists i: nat :: StoredAt(s, c, before, id, i)) && !Overwrites(mid, c, e, c.key(id)))
  {
    var n, events, mid := |before|, before + [e], Run(s, c, before);
    hide Run, Overwrites, Stores, Untouched;
    assert events[..n] == before && events[n] == e;
    assert forall j: nat | j < n :: before[..j] == events[..j] && before[j] == events[j];
    forall i: nat ensures i < n ==> (StoredAt(s, c, events, id, i) <==>
                                     StoredAt(s, c, before, id, i) && !Overwrites(mid, c, e, c.key(id)))
    {
      UntouchedStep(s, c, before, e, c.key(id), i + 1);
    }
    UntouchedStep(s, c, before, e, c.key(id), n + 1);
    assert StoredAt(s, c, events, id, n) <==> Stores(mid, c, e, id);
  }

  /** The operator typed the phrase that asks for autonomy by name, while this account was read. */
  predicate AutonomyTyped(s: State, c: Config, e: Event, id: Identity) {
    e.Enable? && s.running && e.read == Some(id) && Tradable(e.read)
    && e.phrase == (if c.dryRun then EnablePaper else if id.tradeMode == 0 then EnableDemo else EnableLive)
  }

  predicate ArmTyped(s: State, c: Config, e: Event, id: Identity) {
    e.Arm? && s.running && e.read == Some(id) && Tradable(e.read)
    && e.phrase == (if c.dryRun then ArmPaper else if id.tradeMode == 0 then ArmDemo else ArmLive)
  }

  ghost predicate SomeAutonomyTyped(s: State, c: Config, events: seq<Event>, id: Identity) {
    exists i: nat :: i < |events| && AutonomyTyped(Run(s, c, events[..i]), c, events[i], id)
  }

  ghost predicate SomeArmTyped(s: State, c: Config, events: seq<Event>, id: Identity) {
    exists i: nat :: i < |events| && ArmTyped(Run(s, c, events[..i]), c, events[i], id)
  }

  /** A grant means a typed phrase, or a stored record. */
  lemma GrantNeedsConsent(s: State, c: Config, e: Event, id: Identity, power: Power)
    requires Grants(s, c, e, id, power)
    ensures e.Arm? || e.Enable? || e.Start?
    ensures e.Arm? ==> power.Entries? && ArmTyped(s, c, e, id)
    ensures e.Enable? ==> AutonomyTyped(s, c, e, id)
    ensures e.Start? ==> HasRecord(s, c, id)
  {
  }

  /** If an account had no enabled record at first, then however many restarts later, autonomy goes back to
      its own enable phrase typed while it was read; and, if enables agree, armed entries go back to that or to
      its own arming phrase. */
  lemma AuthorityStemsFromTypedPhrase(s: State, c: Config, events: seq<Event>, id: Identity)
    requires !s.running && !HasRecord(s, c, id) && Run(s, c, events).running
    ensures HoldsAutonomy(Run(s, c, events), id) ==> SomeAutonomyTyped(s, c, events, id)
    ensures EnablesAgree(s, c, events) && HoldsEntries(Run(s, c, events), id) ==>
              SomeAutonomyTyped(s, c, events, id) || SomeArmTyped(s, c, events, id)
  {
    AutonomyNeverTransfers(s, c, events, id);
    if EnablesAgree(s, c, events) { EntriesNeverTransfer(s, c, events); }
    hide Run, Grants, Ends, HasRecord;
    if Traceable(s, c, events, id, Autonomy) {
      var i: nat :| GrantedAt(s, c, events, id, Autonomy, i);
      GrantNeedsConsent(Run(s, c, events[..i]), c, events[i], id, Autonomy);
      if events[i].Start? { RecordStemsFromTypedPhrase(s, c, events, i, id); }
    }
    if Traceable(s, c, events, id, Entries) {
      var i: nat :| GrantedAt(s, c, events, id, Entries, i);
      GrantNeedsConsent(Run(s, c, events[..i]), c, events[i], id, Entries);
      if events[i].Start? { RecordStemsFromTypedPhrase(s, c, events, i, id); }
    }
  }

  lemma RecordStemsFromTypedPhrase(s: State, c: Config, events: seq<Event>, n: nat, id: Identity)
    requires n <= |events| && !HasRecord(s, c, id) && HasRecord(Run(s, c, events[..n]), c, id)
    ensures SomeAutonomyTyped(s, c, events, id)
  {
    EnabledRecordIff(s, c, events[..n], id);
    var i: nat :| StoredAt(s, c, events[..n], id, i);
    assert events[..n][..i] == events[..i];
    assert AutonomyTyped(Run(s, c, events[..i]), c, events[i], id);
  }

  /** An account whose mode is neither demo nor real, and that has no enabled record, is never given anything: not
      by a phrase, not by the second read of an enable, not by a restart or a health tick. */
  lemma {:induction false} OtherModesNeverAuthorized(s: State, c: Config, events: seq<Event>, id: Identity)
    requires !s.running && !HasRecord(s, c, id) && id.tradeMode != 0 && id.tradeMode != 2
    ensures
      var end := Run(s, c, events);
      !HasRecord(end, c, id) && (end.running ==> !HoldsEntries(end, id) && !HoldsAutonomy(end, id))
  {
    if events != [] {
      var n := |events| - 1;
      OtherModesNeverAuthorized(s, c, events[..n], id);
      RunIsWellBound(s, c, events[..n]);
      OtherModesStep(Run(s, c, events[..n]), c, events[n], id);
      hide Step;
    }
  }

  lemma OtherModesStep(s: State, c: Config, e: Event, id: Identity)
    requires WellBound(s) && !HasRecord(s, c, id) && id.tradeMode != 0 && id.tradeMode != 2
    requires s.running ==> !HoldsEntries(s, id) && !HoldsAutonomy(s, id)
    ensures var t := Step(s, c, e);
            !HasRecord(t, c, id) && (t.running ==> !HoldsEntries(t, id) && !HoldsAutonomy(t, id))
  {
    match e {
      case Arm(read, ready, phrase) => ArmIff(s, c, read, ready, phrase);
      case Enable(read, phrase, again, ready, write) => EnableIff(s, c, read, phrase, again, ready, write);
      case Start(connected, read, answered, healthy) => StartIff(s, c, connected, read, answered, healthy);
      case Disable(read, write) => DisableIff(s, c, read, write);
      case Tick(failed, modelReady, read, healthy) => TickIff(s, c, failed, modelReady, read, healthy);
      case Observe(read) => ObserveIff(s, c, read);
      case _ => ShutdownsWrittenOut(s, c);
    }
    hide Step;
  }

  // ---------------------------------------------------------------------------------------
  // Switching off, and coming back
  // ---------------------------------------------------------------------------------------

  /** Nobody asks for autonomy on this account again. */
  ghost predicate NoEnable(s: State, c: Config, events: seq<Event>, id: Identity) {
    forall i: nat | i < |events| && events[i].Enable? && EnableAccepted(Run(s, c, events[..i]), c, events[i]) ::
      events[i].read != Some(id)
  }

  /** Starting on an account restores autonomy exactly when its own enabled record was found, and arms exactly
      when every check is fine as well; whatever was in force before does not matter. */
  lemma StartRestoresIff(s: State, c: Config, e: Event, id: Identity)
    requires !s.running && e.Start? && e.connected && e.read == Some(id)
    ensures
      var t := Step(s, c, e);
      && t.running && t.activeId == Some(id) && t.records == s.records
      && (t.autonomous <==> e.answered && HasRecord(s, c, id))
      && (t.armed <==> t.autonomous && e.healthy)
      && (t.armed ==> t.armedId == Some(id)) && (t.autonomous ==> t.autonomousId == Some(id))
  {
  }

  lemma {:induction false} OffStaysOff(s: State, c: Config, events: seq<Event>, id: Identity)
    requires !HasRecord(s, c, id) && !HoldsAutonomy(s, id) && NoEnable(s, c, events, id)
    ensures !HasRecord(Run(s, c, events), c, id) && !HoldsAutonomy(Run(s, c, events), id)
  {
    if events != [] {
      var n := |events| - 1;
      var before, e := events[..n], events[n];
      assert forall i: nat | i < n :: before[..i] == events[..i];
      OffStaysOff(s, c, before, id);
      OffStep(Run(s, c, before), c, e, id);
      hide Step, HasRecord, EnableAccepted;
    }
  }

  lemma OffStep(s: State, c: Config, e: Event, id: Identity)
    requires !HasRecord(s, c, id) && !HoldsAutonomy(s, id)
    requires e.Enable? && EnableAccepted(s, c, e) ==> e.read != Some(id)
    ensures !HasRecord(Step(s, c, e), c, id) && !HoldsAutonomy(Step(s, c, e), id)
  {
  }

  /** Disabling writes under the account the terminal shows at that moment, or the authorized one if it shows
      none. Autonomy then stays off through every later run in which nobody enables it again, restarts
      included, exactly when that write was durable and under the authorized account's key. */
  lemma DisableHoldsIff(s: State, c: Config, id: Identity, read: Option<Identity>, write: Write)
    requires s.autonomousId == Some(id) && HasRecord(s, c, id)
    ensures
      var t := Step(s, c, Disable(read, write));
      (forall events | NoEnable(t, c, events, id) :: !HoldsAutonomy(Run(t, c, events), id)) <==>
      !write.Refused? && (read.None? || c.key(read.value) == c.key(id))
  {
    var t := Step(s, c, Disable(read, write));
    if !write.Refused? && (read.None? || c.key(read.value) == c.key(id)) {
      forall events | NoEnable(t, c, events, id) ensures !HoldsAutonomy(Run(t, c, events), id) {
        OffStaysOff(t, c, events, id);
      }
    } else {
      var start := Start(true, Some(id), true, true);
      var events := [Stop, start];
      RunTwo(t, c, Stop, start);
      StartRestoresIff(Step(t, c, Stop), c, start, id);
      assert NoEnable(t, c, events, id) && HoldsAutonomy(Run(t, c, events), id);
    }
  }

  predicate Good(e: Event, id: Identity)
    requires e.Tick?
  {
    !e.failed && e.modelReady && e.healthy && e.read == Some(id)
  }

  /** With autonomy on, a health tick leaves entries armed exactly when the model and every check are fine
      and the terminal shows the authorized account; it arms nothing else. */
  lemma TickArmsIff(s: State, c: Config, e: Event, id: Identity)
    requires Looping(s) && HoldsAutonomy(s, id) && e.Tick?
    ensures
      var t := Step(s, c, e);
      && (t.armed <==> Good(e, id)) && (t.armed ==> t.armedId == if s.armed then s.armedId else Some(id))
      && Looping(t) && HoldsAutonomy(t, id)
  {
  }

  /** Through any run of health ticks autonomy stays; entries are armed at the end exactly when the last tick
      was good; and if they were ever off, they come back for the authorized account alone. */
  lemma {:induction false} TicksRecover(s: State, c: Config, events: seq<Event>, id: Identity)
    requires Looping(s) && HoldsAutonomy(s, id) && events != [] && forall e | e in events :: e.Tick?
    ensures
      var end := Run(s, c, events);
      && Looping(end) && HoldsAutonomy(end, id)
      && (end.armed <==> Good(events[|events| - 1], id))
      && (end.armed && (!s.armed || exists e :: e in events && !Good(e, id)) ==> HoldsEntries(end, id))
      && (end.armed && s.armed && (forall e | e in events :: Good(e, id)) ==> end.armedId == s.armedId)
  {
    var n := |events| - 1;
    var before, e := events[..n], events[n];
    assert events == before + [e];
    RunAppend(s, c, before, e);
    if before != [] { TicksRecover(s, c, before, id); }
    TickArmsIff(Run(s, c, before), c, e, id);
    hide Step, Run;
    if before != [] && Run(s, c, before).armed { assert Good(before[n - 1], id); }
  }

  // ---------------------------------------------------------------------------------------
  // Handing an order over
  // ---------------------------------------------------------------------------------------

  /** The executor refuses work while it is not accepting, and otherwise compares the account it is about to
      trade on with the identity it is given, if any. */
  predicate OrderAllowed(s: State, actual: Identity) {
    s.accepting && (s.armedId.None? || s.armedId.value == actual)
  }

  /** A stop cancels and awaits every evaluation that is under way. */
  predicate Cancelled(events: seq<Event>) { Stop in events }

  /** Whatever account the terminal turns out to be on, an order that passed the gate before these events is
      sent only if it is this one. */
  ghost predicate OnlyReaches(gate: State, c: Config, events: seq<Event>, id: Identity) {
    !Cancelled(events) ==> forall actual :: OrderAllowed(Run(gate, c, events), actual) ==> actual == id
  }

  /** The executor has accepted work ever since the gate. */
  predicate StillAccepting(gate: State, events: seq<Event>) {
    gate.accepting && Stop !in events && Fail !in events
  }

  /** This step disarms entries or arms them for another account, and leaves the executor accepting. */
  predicate DisplacedAt(gate: State, c: Config, events: seq<Event>, j: nat) {
    j < |events| && StillAccepting(gate, events[..j + 1]) && Displaces(Run(gate, c, events[..j]), c, events[j])
  }

  ghost predicate NothingDisplaces(gate: State, c: Config, events: seq<Event>) {
    forall j: nat :: !DisplacedAt(gate, c, events, j)
  }

  /** The gate approves a plan on the armed account, and the identity is read again when the order is handed
      over. At every moment in between the order can reach only the account that passed the gate, exactly
      when no step in between disarmed entries, or armed them for another account, and left the executor
      accepting work. */
  lemma OrdersReachGateAccountIff(s: State, c: Config, before: seq<Event>, between: seq<Event>, id: Identity)
    requires !s.running && Run(s, c, before).running && HoldsEntries(Run(s, c, before), id)
    ensures
      var gate := Run(s, c, before);
      (forall k: nat | k <= |between| :: OnlyReaches(gate, c, between[..k], id)) <==>
      NothingDisplaces(gate, c, between)
  {
    RunIsWellBound(s, c, before);
    HeldIff(Run(s, c, before), c, between, id);
  }

  lemma OrderAllowedIff(s: State, id: Identity)
    ensures (forall actual :: OrderAllowed(s, actual) ==> actual == id) <==> (s.accepting ==> s.armedId == Some(id))
  {
    if s.accepting {
      var other := if s.armedId.Some? then s.armedId.value else id.(login := id.login + 1);
      assert OrderAllowed(s, other);
    }
  }

  ghost predicate AlwaysOnlyReaches(gate: State, c: Config, events: seq<Event>, id: Identity) {
    forall k: nat | k <= |events| :: OnlyReaches(gate, c, events[..k], id)
  }

  lemma ReachesStep(gate: State, c: Config, before: seq<Event>, e: Event, id: Identity)
    ensures AlwaysOnlyReaches(gate, c, before + [e], id) <==>
              AlwaysOnlyReaches(gate, c, before, id) && OnlyReaches(gate, c, before + [e], id)
  {
    hide OnlyReaches;
    var n, events := |before|, before + [e];
    assert events[..n + 1] == events;
    forall k: nat | k <= n ensures OnlyReaches(gate, c, before[..k], id) == OnlyReaches(gate, c, events[..k], id) {
      assert before[..k] == events[..k];
    }
  }

  lemma DisplacesStep(gate: State, c: Config, before: seq<Event>, e: Event)
    ensures NothingDisplaces(gate, c, before + [e]) <==>
              && NothingDisplaces(gate, c, before)
              && (StillAccepting(gate, before + [e]) ==> !Displaces(Run(gate, c, before), c, e))
  {
    var n, events := |before|, before + [e];
    hide Run, Displaces, StillAccepting;
    assert events[..n] == before && events[..n + 1] == events && events[n] == e;
    assert DisplacedAt(gate, c, events, n) <==>
             StillAccepting(gate, events) && Displaces(Run(gate, c, before), c, e);
    forall k: nat ensures k != n ==> (DisplacedAt(gate, c, before, k) <==> DisplacedAt(gate, c, events, k)) {
      if k < n { assert before[..k] == events[..k] && before[..k + 1] == events[..k + 1]; }
    }
    assert !DisplacedAt(gate, c, before, n);
    hide DisplacedAt;
  }

  /** While nothing displaced it, an uncancelled order finds the executor accepting exactly when nothing shut
      it down. */
  lemma {:induction false} AcceptingIff(gate: State, c: Config, events: seq<Event>)
    requires gate.running && !Cancelled(events)
    ensures Run(gate, c, events).running
    ensures Run(gate, c, events).accepting <==> StillAccepting(gate, events)
  {
    if events != [] {
      var n := |events| - 1;
      assert events == events[..n] + [events[n]];
      AcceptingIff(gate, c, events[..n]);
      StepAccepts(Run(gate, c, events[..n]), c, events[n]);
      hide Step;
    }
  }

  lemma StepAccepts(s: State, c: Config, e: Event)
    requires s.running && !e.Stop?
    ensures Step(s, c, e).running && (Step(s, c, e).accepting <==> s.accepting && !e.Fail?)
  {
  }

  lemma {:induction false} HeldIff(gate: State, c: Config, events: seq<Event>, id: Identity)
    requires WellBound(gate) && gate.running && HoldsEntries(gate, id)
    ensures AlwaysOnlyReaches(gate, c, events, id) <==> NothingDisplaces(gate, c, events)
    ensures NothingDisplaces(gate, c, events) && StillAccepting(gate, events) ==>
              HoldsEntries(Run(gate, c, events), id)
  {
    if events == [] {
      assert events[..0] == events;
    } else {
      var n := |events| - 1;
      var before, e := events[..n], events[n];
      assert events == before + [e];
      HeldIff(gate, c, before, id);
      ReachesStep(gate, c, before, e, id);
      DisplacesStep(gate, c, before, e);
      if !StillAccepting(gate, events) {
        ShutReachesNobody(gate, c, events, id);
      } else {
        OpenStep(gate, c, before, e, id);
      }
      hide Run, AlwaysOnlyReaches, NothingDisplaces, OnlyReaches, Displaces;
    }
  }

  lemma ShutReachesNobody(gate: State, c: Config, events: seq<Event>, id: Identity)
    requires gate.running && !StillAccepting(gate, events)
    ensures OnlyReaches(gate, c, events, id)
  {
    if !Cancelled(events) { AcceptingIff(gate, c, events); }
  }

  lemma OpenStep(gate: State, c: Config, before: seq<Event>, e: Event, id: Identity)
    requires WellBound(gate) && gate.running && StillAccepting(gate, before + [e])
    requires NothingDisplaces(gate, c, before) ==> HoldsEntries(Run(gate, c, before), id)
    ensures StillAccepting(gate, before)
    ensures NothingDisplaces(gate, c, before) ==>
              && (OnlyReaches(gate, c, before + [e], id) <==> !Displaces(Run(gate, c, before), c, e))
              && (!Displaces(Run(gate, c, before), c, e) ==> HoldsEntries(Run(gate, c, before + [e]), id))
  {
    var mid := Run(gate, c, before);
    RunAppend(gate, c, before, e);
    AcceptingIff(gate, c, before);
    AcceptingIff(gate, c, before + [e]);
    RunIsWellBound(gate, c, before);
    OrderAllowedIff(Step(mid, c, e), id);
    if NothingDisplaces(gate, c, before) { StepHolds(mid, c, e); }
    hide Run, Step, Displaces, NothingDisplaces;
  }

  /** Still being armed is not enough: an order approved on one account goes out on another when entries were
      re-armed for it in between, and on any account at all when they were disarmed; after a core failure or
      a stop it goes nowhere. */
  lemma RearmedOrderChangesAccount(c: Config)
    requires !c.dryRun
    ensures
      var (a, b) := (Identity(1, "", "", 0), Identity(2, "", "", 0));
      var start := State(false, true, false, None, None, false, None, map[]);
      var gate := Run(start, c, [Start(true, Some(a), true, true), Arm(Some(a), true, ArmDemo)]);
      var rearmed := Run(gate, c, [Observe(Some(b)), Arm(Some(b), true, ArmDemo)]);
      && gate.running && HoldsEntries(gate, a) && rearmed.armed
      && OrderAllowed(rearmed, b) && !OrderAllowed(rearmed, a)
      && (forall actual :: OrderAllowed(Run(gate, c, [Lock]), actual))
      && (forall actual :: !OrderAllowed(Run(gate, c, [Fail]), actual) && !OrderAllowed(Run(gate, c, [Stop]), actual))
  {
    var (a, b) := (Identity(1, "", "", 0), Identity(2, "", "", 0));
    var start := State(false, true, false, None, None, false, None, map[]);
    var on, arm, seen, again :=
      Start(true, Some(a), true, true), Arm(Some(a), true, ArmDemo), Observe(Some(b)), Arm(Some(b), true, ArmDemo);
    RunTwo(start, c, on, arm);
    var started := State(true, true, false, None, Some(a), false, None, map[]);
    var gate := started.(armed := true, armedId := Some(a));
    assert Step(start, c, on) == started && Step(started, c, arm) == gate;
    RunTwo(gate, c, seen, again);
    var moved := started.(activeId := Some(b));
    assert Step(gate, c, seen) == moved && Step(moved, c, again) == moved.(armed := true, armedId := Some(b));
    RunTwo(gate, c, Lock, Lock);
    RunTwo(gate, c, Fail, Lock);
    RunTwo(gate, c, Stop, Lock);
    hide Run;
  }

  lemma RunTwo(s: State, c: Config, a: Event, b: Event)
    ensures Run(s, c, [a]) == Step(s, c, a) && Run(s, c, [a, b]) == Step(Step(s, c, a), c, b)
  {
    hide Step;
    assert [a] == [] + [a] && [a, b] == [a] + [b];
    RunAppend(s, c, [], a);
    RunAppend(s, c, [a], b);
  }
}
