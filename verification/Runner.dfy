/** The simulator's counters while any number of attempts interleave. */
module Runner {
  import opened Prelude
  import opened Decimal
  import opened Fraud

  /** The `reason` in an error body: absent, a string, or something without `trim`. */
  datatype BodyReason = NoReason | Text(text: string) | NotText

  /** What an attempt can throw. */
  datatype Thrown = AgentFailure(status: nat, reason: BodyReason) | OtherFailure

  /**
   How one attempt ends. A fulfilment is unprintable when it is a JSON null, or when a field the
   event line prints is a value JavaScript cannot convert to text or to a number.
   */
  datatype Outcome = NothingToBuy | Fulfilled(unprintable: bool) | Threw(error: Thrown)

  datatype Event =
    | Attempt(id: nat, configured: bool, fraud: Option<Mode>)
    | Finish(id: nat, outcome: Outcome)

  const TRANSPORT_ERROR := "transport_error"

  function ModeName(mode: Mode): string {
    match mode
    case TamperedPublisher => "tampered_publisher"
    case TamperedCommission => "tampered_commission"
    case Expired => "expired"
    case ForgedSignature => "forged_signature"
    case UnknownPublisher => "unknown_publisher"
  }

  /** The recorded reason, or None when reading it throws in its turn. */
  function ReasonOf(error: Thrown): Option<string> {
    match error
    case OtherFailure => Some(TRANSPORT_ERROR)
    case AgentFailure(status, NotText) => None
    case AgentFailure(status, NoReason) => Some("http_" + PrintInt(status))
    case AgentFailure(status, Text(text)) => Some(if Trim(text) != "" then Trim(text) else "http_" + PrintInt(status))
  }

  /**
   What is recorded of an error: the reason in its body without surrounding white space, its
   status when that leaves nothing or there is none, and `transport_error` for anything that is
   no answer; never a blank. Only a reason without `trim` cannot be read.
   */
  lemma ReasonsAreNamed(error: Thrown)
    ensures ReasonOf(error).Some? ==> ReasonOf(error).value != ""
    ensures ReasonOf(error).None? <==> error.AgentFailure? && error.reason.NotText?
    ensures error.OtherFailure? ==> ReasonOf(error) == Some("transport_error")
    ensures error.AgentFailure? && !error.reason.NotText? ==>
              var text := if error.reason.Text? then error.reason.text else "";
              ReasonOf(error) == Some(if Blank(text) then "http_" + PrintInt(error.status) else Trim(text))
  {
    if error.AgentFailure? && error.reason.Text? {
      TrimCuts(error.reason.text);
    }
  }

  // The counters and, beside them, how the attempts went

  datatype Stats = Stats(started: nat, settled: nat, blocked: nat, failed: nat, byReason: map<string, nat>)

  /** Attempts in flight, and those the counters treat unevenly. */
  datatype Tally = Tally(
    stats: Stats,
    flight: map<nat, Option<Mode>>,
    unconfigured: nat,
    noOffer: nat,
    countedTwice: nat, // an unprintable fulfilment, counted as an outcome and again as a failure
    uncounted: nat) // an error whose reason could not be read

  function Count(byReason: map<string, nat>, reason: string): map<string, nat> {
    byReason[reason := (if reason in byReason then byReason[reason] else 0) + 1]
  }

  /** `#handleFailure`. */
  function Failing(s: Stats, fraud: Option<Mode>, reason: string): Stats {
    var counted := s.(byReason := Count(s.byReason, reason));
    if fraud.Some? then counted.(blocked := s.blocked + 1) else counted.(failed := s.failed + 1)
  }

  /** A purchase that was honoured. */
  function Honoured(s: Stats, fraud: Option<Mode>): Stats {
    if fraud.Some?
    then s.(failed := s.failed + 1, byReason := Count(s.byReason, "accepted_fraud_" + ModeName(fraud.value)))
    else s.(settled := s.settled + 1)
  }

  function Next(t: Tally, e: Event): Tally {
    match e
    case Attempt(id, configured, fraud) =>
      if id in t.flight then t
      else if !configured then t.(stats := t.stats.(failed := t.stats.failed + 1), unconfigured := t.unconfigured + 1)
      else t.(stats := t.stats.(started := t.stats.started + 1), flight := t.flight[id := fraud])
    case Finish(id, outcome) =>
      if id !in t.flight then t
      else
        var fraud := t.flight[id];
        var landed := t.(flight := t.flight - {id});
        match outcome
        case NothingToBuy => landed.(stats := t.stats.(failed := t.stats.failed + 1), noOffer := t.noOffer + 1)
        case Fulfilled(false) => landed.(stats := Honoured(t.stats, fraud))
        case Fulfilled(true) =>
          landed.(stats := Failing(Honoured(t.stats, fraud), fraud, TRANSPORT_ERROR), countedTwice := t.countedTwice + 1)
        case Threw(error) =>
          var reason := ReasonOf(error);
          if reason.None? then landed.(uncounted := t.uncounted + 1)
          else landed.(stats := Failing(t.stats, fraud, reason.value))
  }

  const IDLE := Tally(Stats(0, 0, 0, 0, map[]), map[], 0, 0, 0, 0)

  function After(events: seq<Event>): Tally {
    if events == [] then IDLE else Next(After(events[..|events| - 1]), events[|events| - 1])
  }

  // What the counters promise

  function Times(n: nat): int {
    n
  }

  ghost function AllRecorded(s: Stats): int {
    SumMap(s.byReason, Times)
  }

  lemma CountAddsOne(byReason: map<string, nat>, reason: string)
    ensures SumMap(Count(byReason, reason), Times) == SumMap(byReason, Times) + 1
  {
    SumMapPut(byReason, reason, (if reason in byReason then byReason[reason] else 0) + 1, Times);
  }

  lemma FailingCounts(s: Stats, fraud: Option<Mode>, reason: string)
    ensures var s' := Failing(s, fraud, reason);
            && AllRecorded(s') == AllRecorded(s) + 1 && s'.blocked + s'.failed == s.blocked + s.failed + 1
            && s'.settled == s.settled && s'.started == s.started
  {
    CountAddsOne(s.byReason, reason);
  }

  lemma HonouredCounts(s: Stats, fraud: Option<Mode>)
    ensures var s' := Honoured(s, fraud);
            && s'.started == s.started && s'.blocked == s.blocked
            && s'.settled + s'.failed == s.settled + s.failed + 1
            && AllRecorded(s') - s'.failed == AllRecorded(s) - s.failed
            && (fraud.Some? ==> s'.settled == s.settled)
  {
    if fraud.Some? {
      CountAddsOne(s.byReason, "accepted_fraud_" + ModeName(fraud.value));
    }
  }

  ghost predicate Balanced(t: Tally) {
    && t.stats.started + t.unconfigured + t.countedTwice
       == t.stats.settled + t.stats.blocked + t.stats.failed + |t.flight| + t.uncounted
    && AllRecorded(t.stats) == t.stats.blocked + t.stats.failed - t.noOffer - t.unconfigured
  }

  lemma NextBalances(t: Tally, e: Event)
    requires Balanced(t)
    ensures Balanced(Next(t, e))
  {
    hide AllRecorded, Failing, Honoured, ReasonOf;
    match e
    case Attempt(id, configured, fraud) =>
      SameRecord(t.stats, t.stats.(failed := t.stats.failed + 1));
      SameRecord(t.stats, t.stats.(started := t.stats.started + 1));
    case Finish(id, outcome) =>
      if id in t.flight {
        FinishBalances(t, id, outcome);
      }
  }

  lemma FinishBalances(t: Tally, id: nat, outcome: Outcome)
    requires Balanced(t) && id in t.flight
    ensures Balanced(Next(t, Finish(id, outcome)))
  {
    hide AllRecorded, Failing, Honoured, ReasonOf;
    var fraud := t.flight[id];
    assert t.flight == (t.flight - {id})[id := fraud];
    assert |t.flight| == |t.flight - {id}| + 1;
    match outcome
    case NothingToBuy =>
      SameRecord(t.stats, t.stats.(failed := t.stats.failed + 1));
    case Fulfilled(unprintable) =>
      HonouredCounts(t.stats, fraud);
      FailingCounts(Honoured(t.stats, fraud), fraud, TRANSPORT_ERROR);
    case Threw(error) =>
      if ReasonOf(error).Some? {
        FailingCounts(t.stats, fraud, ReasonOf(error).value);
      }
  }

  lemma SameRecord(s: Stats, s': Stats)
    requires s.byReason == s'.byReason
    ensures AllRecorded(s) == AllRecorded(s')
  {
  }

  /**
   After any interleaving the attempts started, plus those without configuration, are the
   settled, blocked, failed and still flying ones exactly when as many ended in an unprintable
   fulfilment as in an unreadable error; and the tally by reason always lacks exactly the
   failures that record none.
   */
  lemma {:induction false} CountersBalance(events: seq<Event>)
    ensures var t := After(events);
            && Balanced(t)
            && (t.stats.started + t.unconfigured == t.stats.settled + t.stats.blocked + t.stats.failed + |t.flight|
                <==> t.countedTwice == t.uncounted)
  {
    hide Next, AllRecorded;
    if events != [] {
      CountersBalance(events[..|events| - 1]);
      NextBalances(After(events[..|events| - 1]), events[|events| - 1]);
    } else {
      NoneRecorded();
    }
  }

  /** One honest purchase answered with a null, say: an attempt started once and counted twice. */
  lemma UnprintableIsCountedTwice()
    ensures var t := After([Attempt(0, true, None), Finish(0, Fulfilled(true))]);
            t.stats.started == t.stats.settled == t.stats.failed == 1 && t.stats.blocked == t.unconfigured == |t.flight| == 0
  {
    var first, both := [Attempt(0, true, None)], [Attempt(0, true, None), Finish(0, Fulfilled(true))];
    assert first[..0] == [] && both[..1] == first;
    assert After(first) == Next(IDLE, Attempt(0, true, None));
  }

  lemma NoneRecorded()
    ensures Balanced(IDLE)
  {
  }

  /** Every fulfilment could be printed and every error's reason could be read. */
  predicate Regular(e: Event) {
    e.Finish? ==> match e.outcome
                  case NothingToBuy => true
                  case Fulfilled(unprintable) => !unprintable
                  case Threw(error) => ReasonOf(error).Some?
  }

  /** With regular outcomes nothing is counted twice or left out. */
  lemma {:induction false} RegularCountersBalance(events: seq<Event>)
    requires forall e :: e in events ==> Regular(e)
    ensures After(events).countedTwice == After(events).uncounted == 0
  {
    if events != [] {
      assert Regular(events[|events| - 1]);
      RegularCountersBalance(events[..|events| - 1]);
    }
  }

  // Each counter, counted from the events alone

  /** The attempt `id` is waiting for, and whether it is an attack: it began, configured, and has not ended. */
  function Flying(events: seq<Event>, id: nat): Option<Option<Mode>> {
    if events == [] then None
    else
      var before, e := Flying(events[..|events| - 1], id), events[|events| - 1];
      if e.id != id then before
      else if e.Finish? then None
      else if before.None? && e.configured then Some(e.fraud)
      else before
  }

  /** The answer was an error with a reason to record, or a fulfilment that could not be printed. */
  predicate Failed(outcome: Outcome) {
    match outcome
    case NothingToBuy => false
    case Fulfilled(unprintable) => unprintable
    case Threw(error) => ReasonOf(error).Some?
  }

  datatype Counter = Started | Settled | Blocked | FailedOnes | Recorded(reason: string)

  /** How much event `e` adds to a counter, given what its attempt was waiting for. */
  function Adds(counter: Counter, e: Event, flying: Option<Option<Mode>>): nat {
    match e
    case Attempt(_, configured, _) =>
      if flying.None? && ((counter.Started? && configured) || (counter.FailedOnes? && !configured)) then 1 else 0
    case Finish(_, outcome) =>
      if flying.None? then 0
      else
        var attack := flying.value;
        match counter
        case Started => 0
        case Settled => if outcome.Fulfilled? && attack.None? then 1 else 0
        case Blocked => if Failed(outcome) && attack.Some? then 1 else 0
        case FailedOnes => if outcome.NothingToBuy? || (outcome.Fulfilled? && attack.Some?) || (Failed(outcome) && attack.None?) then 1 else 0
        case Recorded(reason) =>
          if outcome.Threw? then if ReasonOf(outcome.error) == Some(reason) then 1 else 0
          else if outcome.NothingToBuy? then 0
          else
            (if attack.Some? && reason == "accepted_fraud_" + ModeName(attack.value) then 1 else 0)
            + if outcome.unprintable && reason == "transport_error" then 1 else 0
  }

  function Counted(events: seq<Event>, counter: Counter): nat {
    if events == [] then 0
    else
      var front, e := events[..|events| - 1], events[|events| - 1];
      Counted(front, counter) + Adds(counter, e, Flying(front, e.id))
  }

  function Shown(s: Stats, counter: Counter): nat {
    match counter
    case Started => s.started
    case Settled => s.settled
    case Blocked => s.blocked
    case FailedOnes => s.failed
    case Recorded(reason) => if reason in s.byReason then s.byReason[reason] else 0
  }

  lemma {:induction false} FlightIs(events: seq<Event>, id: nat)
    ensures id in After(events).flight <==> Flying(events, id).Some?
    ensures id in After(events).flight ==> Flying(events, id) == Some(After(events).flight[id])
  {
    hide Honoured, Failing, ReasonOf;
    if events != [] {
      FlightIs(events[..|events| - 1], id);
    }
  }

  lemma NextAdds(t: Tally, e: Event, counter: Counter)
    ensures Shown(Next(t, e).stats, counter)
            == Shown(t.stats, counter) + Adds(counter, e, if e.id in t.flight then Some(t.flight[e.id]) else None)
  {
    hide ReasonOf, ModeName;
  }

  /**
   Every counter says what happened, in every interleaving: attempts begun, honest purchases
   fulfilled, attacks refused, everything else that went wrong, and each reason as often as it
   was met.
   */
  lemma {:induction false} CountersCount(events: seq<Event>, counter: Counter)
    ensures Shown(After(events).stats, counter) == Counted(events, counter)
  {
    hide Next, Adds, Flying;
    if events != [] {
      var front, e := events[..|events| - 1], events[|events| - 1];
      CountersCount(front, counter);
      FlightIs(front, e.id);
      NextAdds(After(front), e, counter);
    }
  }

  /** When every attempt is an attack nothing is ever counted as settled, whatever is fulfilled. */
  lemma {:induction false} FraudNeverSettles(events: seq<Event>)
    requires forall e :: e in events && e.Attempt? ==> e.fraud.Some?
    ensures After(events).stats.settled == 0
  {
    CountersCount(events, Settled);
    NoHonestFlight(events);
  }

  lemma {:induction false} NoHonestFlight(events: seq<Event>)
    requires forall e :: e in events && e.Attempt? ==> e.fraud.Some?
    ensures Counted(events, Settled) == 0 && forall id :: Flying(events, id) != Some(None)
  {
    if events != [] {
      var front, e := events[..|events| - 1], events[|events| - 1];
      NoHonestFlight(front);
      assert e in events;
      forall id
        ensures Flying(events, id) != Some(None)
      {
        assert Flying(front, id) != Some(None);
      }
    }
  }

  lemma AcceptedFraudIsFailure(t: Tally, id: nat)
    requires id in t.flight && t.flight[id].Some?
    ensures var s := Next(t, Finish(id, Fulfilled(false))).stats;
            var key := "accepted_fraud_" + ModeName(t.flight[id].value);
            && s.settled == t.stats.settled && s.failed == t.stats.failed + 1
            && key in s.byReason && s.byReason[key] == (if key in t.stats.byReason then t.stats.byReason[key] else 0) + 1
  {
  }

  class Runner {
    var started: nat
    var settled: nat
    var blocked: nat
    var failed: nat
    var byReason: map<string, nat>
    /** The attack, if any, each attempt in flight carries. */
    var flight: map<nat, Option<Mode>>
    ghost var events: seq<Event>

    function Snapshot(): Stats
      reads this
    {
      Stats(started, settled, blocked, failed, byReason)
    }

    ghost predicate Valid()
      reads this
    {
      Snapshot() == After(events).stats && flight == After(events).flight
    }

    constructor ()
      ensures Valid() && events == []
    {
      started, settled, blocked, failed := 0, 0, 0, 0;
      byReason, flight, events := map[], map[], [];
    }

    /** `runOnce` up to its first wait. */
    method Start(id: nat, configured: bool, fraud: Option<Mode>)
      requires Valid() && id !in flight
      modifies this
      ensures Valid() && events == old(events) + [Attempt(id, configured, fraud)]
    {
      events := events + [Attempt(id, configured, fraud)];
      if !configured {
        failed := failed + 1;
        return;
      }
      started := started + 1;
      flight := flight[id := fraud];
    }

    /** `runOnce` from its last answer on. */
    method End(id: nat, outcome: Outcome)
      requires Valid() && id in flight
      modifies this
      ensures Valid() && events == old(events) + [Finish(id, outcome)]
    {
      events := events + [Finish(id, outcome)];
      var fraud := flight[id];
      flight := flight - {id};
      match outcome
      case NothingToBuy =>
        failed := failed + 1;
      case Threw(error) =>
        HandleFailure(error, fraud);
      case Fulfilled(unprintable) =>
        if fraud.Some? {
          failed := failed + 1;
          Record("accepted_fraud_" + ModeName(fraud.value));
        } else {
          settled := settled + 1;
        }
        // Composing the event line throws.
        if unprintable {
          HandleFailure(OtherFailure, fraud);
        }
    }

    method HandleFailure(error: Thrown, fraud: Option<Mode>)
      modifies this`blocked, this`failed, this`byReason
      ensures Snapshot() == var reason := ReasonOf(error);
                            if reason.None? then old(Snapshot()) else Failing(old(Snapshot()), fraud, reason.value)
    {
      var reason := ReasonOf(error);
      if reason.None? {
        return;
      }
      if fraud.Some? {
        blocked := blocked + 1;
      } else {
        failed := failed + 1;
      }
      Record(reason.value);
    }

    method Record(reason: string)
      modifies this`byReason
      ensures byReason == Count(old(byReason), reason)
    {
      byReason := byReason[reason := (if reason in byReason then byReason[reason] else 0) + 1];
    }
  }
}
