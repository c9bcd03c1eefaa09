/**
  The gates of the IME bridge after a run, read off the events, and what each
  event does to the waiting input.
 */
module BridgeHistory {
  import opened Common
  import opened ImeBridge

  /* ---------- which context, with a serial or not ---------- */

  /** The context of the last activate that was not followed by its deactivate. */
  function ActiveContext(events: seq<Event>): Option<ContextId> {
    if events == [] then None
    else
      var before, e := ActiveContext(events[..|events| - 1]), events[|events| - 1];
      if e.ActivateV1? then Some(e.context)
      else if e.DeactivateV1? && before == Some(e.context) then None
      else before
  }

  /** The last serial that came for the context active at the time. */
  function LatestSerial(events: seq<Event>): nat {
    if events == [] then 0
    else
      var before, e := events[..|events| - 1], events[|events| - 1];
      if e.CommitStateV1? && ActiveContext(before) == Some(e.context) then e.serial % WORD else LatestSerial(before)
  }

  ghost function SerialComesV1(): Moment<Event> {
    (before: seq<Event>, e: Event) => e.CommitStateV1? && ActiveContext(before) == Some(e.context)
  }

  ghost function SerialGoesV1(): Moment<Event> {
    (before: seq<Event>, e: Event) => e.ActivateV1? || ((e.DeactivateV1? || e.ResetV1?) && ActiveContext(before) == Some(e.context))
  }

  lemma {:induction false} Kept(b: Bridge)
    ensures TryCommit(b).context == b.context && TryCommit(b).v2Active == b.v2Active && TryCommit(b).haveSerial == b.haveSerial
    ensures TryCommit(b).serial == b.serial && TryCommit(b).v2Serial == b.v2Serial && TryCommit(b).doneEvents == b.doneEvents
    ensures TryCommit(b).activations == b.activations && TryCommit(b).protocol == b.protocol && TryCommit(b).accepted == b.accepted
  {
  }

  /** v1: context and serial are the latest, and the gate is open from a serial until the context or its state goes. */
  lemma {:induction false} GatesV1(events: seq<Event>)
    ensures var b := Exec(Initial(V1), events);
      && b.context == ActiveContext(events) && b.serial == LatestSerial(events)
      && (b.haveSerial <==> Since(events, SerialComesV1(), SerialGoesV1()))
  {
    if events != [] {
      var before, e := events[..|events| - 1], events[|events| - 1];
      GatesV1(before);
      RunGood(V1, before);
      SinceLast(events, SerialComesV1(), SerialGoesV1());
      StepV1(Exec(Initial(V1), before), e);
    }
  }

  lemma {:induction false} StepV1(b: Bridge, e: Event)
    requires b.protocol == V1
    ensures var b' := Apply(b, e);
      && b'.context == (if e.ActivateV1? then Some(e.context)
                        else if e.DeactivateV1? && b.context == Some(e.context) then None else b.context)
      && b'.serial == (if e.CommitStateV1? && b.context == Some(e.context) then e.serial % WORD else b.serial)
      && (b'.haveSerial <==>
            || (e.CommitStateV1? && b.context == Some(e.context))
            || (b.haveSerial && !e.ActivateV1? && !((e.DeactivateV1? || e.ResetV1?) && b.context == Some(e.context))))
  {
    if e.CommitStateV1? {
      Kept(b.(serial := e.serial % WORD, haveSerial := true));
    }
  }

  ghost function ActivatesV2(): Moment<Event> {
    (before: seq<Event>, e: Event) => e.ActivateV2?
  }

  ghost function DeactivatesV2(): Moment<Event> {
    (before: seq<Event>, e: Event) => e.DeactivateV2? || e.UnavailableV2?
  }

  ghost function SerialComesV2(): Moment<Event> {
    (before: seq<Event>, e: Event) => e.DoneV2? && Since(before, ActivatesV2(), DeactivatesV2())
  }

  ghost function SerialGoesV2(): Moment<Event> {
    (before: seq<Event>, e: Event) => e.ActivateV2? || e.DeactivateV2? || e.UnavailableV2?
  }

  function DoneCount(events: seq<Event>): nat {
    if events == [] then 0 else DoneCount(events[..|events| - 1]) + (if events[|events| - 1].DoneV2? then 1 else 0)
  }

  /** v2: active from activate to deactivate, the gate open from the first done after an activate. */
  lemma {:induction false} GatesV2(events: seq<Event>)
    ensures var b := Exec(Initial(V2), events);
      && (b.v2Active <==> Since(events, ActivatesV2(), DeactivatesV2()))
      && (b.haveSerial <==> Since(events, SerialComesV2(), SerialGoesV2()))
      && b.doneEvents == DoneCount(events) && (b.haveSerial ==> b.v2Active)
  {
    if events != [] {
      var before, e := events[..|events| - 1], events[|events| - 1];
      var b := Exec(Initial(V2), before);
      GatesV2(before);
      RunGood(V2, before);
      SinceLast(events, ActivatesV2(), DeactivatesV2());
      SinceLast(events, SerialComesV2(), SerialGoesV2());
      if e.Arrive? {
        Kept(b.(queue := b.queue + [Typed(e.message, Home(b))], accepted := b.accepted + [Typed(e.message, Home(b))]));
      } else if e.DoneV2? {
        var serial := (b.v2Serial + 1) % WORD;
        Kept(b.(v2Serial := serial, serial := serial, haveSerial := b.v2Active, doneEvents := b.doneEvents + 1));
      }
    }
  }

  /* ---------- what becomes of the input ---------- */

  /** Events that throw the waiting input away. */
  predicate Clears(b: Bridge, e: Event) {
    match e
    case ActivateV1(_) => b.context.Some?
    case DeactivateV1(context) => b.context == Some(context)
    case ResetV1(context) => b.context == Some(context)
    case DeactivateV2 => b.protocol == V2
    case UnavailableV2 => b.protocol == V2
    case _ => false
  }

  /** The message that this event adds. */
  function Added(b: Bridge, e: Event): seq<Typed> {
    if e.Arrive? && Active(b) && |b.queue| < MAX_QUEUED_MESSAGES then [Typed(e.message, Home(b))] else []
  }

  /** Thrown away, delivered once the gate is open, or waiting as before. */
  ghost predicate FateLaw(b: Bridge, e: Event) {
    var b', waiting := Apply(b, e), b.queue + Added(b, e);
    && b'.accepted == b.accepted + Added(b, e)
    && (Clears(b, e) ==> b'.queue == [] && b'.fates == b.fates + DiscardAll(b.queue))
    && (!Clears(b, e) && Active(b') && b'.haveSerial ==> b'.queue == [] && b'.fates == b.fates + DeliverAll(waiting, Home(b')))
    && (!Clears(b, e) && !(Active(b') && b'.haveSerial) ==> b'.queue == waiting && b'.fates == b.fates)
  }

  lemma {:induction false} NoneWaiting(b: Bridge, home: nat)
    ensures b.queue + [] == b.queue && b.accepted + [] == b.accepted && b.fates + [] == b.fates
    ensures DeliverAll([], home) == [] && DiscardAll([]) == []
  {
  }

  lemma {:induction false} TryCommitFates(b: Bridge)
    requires !Active(b) ==> b.queue == []
    ensures Active(b) && b.haveSerial ==> TryCommit(b).queue == [] && TryCommit(b).fates == b.fates + DeliverAll(b.queue, Home(b))
    ensures !(Active(b) && b.haveSerial) ==> TryCommit(b) == b
  {
    NoneWaiting(b, Home(b));
  }

  lemma {:induction false} FateOfEvent(b: Bridge, e: Event)
    requires Good(b)
    ensures FateLaw(b, e)
  {
    match e
    case CommitStateV1(context, serial) => SerialFates(b, context, serial);
    case DoneV2 => DoneFates(b);
    case Arrive(m) => ArrivalFates(b, m);
    case _ => ContextFates(b, e);
  }

  lemma {:induction false} SerialFates(b: Bridge, context: ContextId, serial: nat)
    requires Good(b)
    ensures FateLaw(b, CommitStateV1(context, serial))
  {
    NoneWaiting(b, Home(b));
    if b.context == Some(context) {
      TryCommitFates(b.(serial := serial % WORD, haveSerial := true));
    }
  }

  lemma {:induction false} DoneFates(b: Bridge)
    requires Good(b)
    ensures FateLaw(b, DoneV2)
  {
    NoneWaiting(b, Home(b));
    if b.protocol == V2 {
      var serial := (b.v2Serial + 1) % WORD;
      TryCommitFates(b.(v2Serial := serial, serial := serial, haveSerial := b.v2Active, doneEvents := b.doneEvents + 1));
    }
  }

  lemma {:induction false} ArrivalFates(b: Bridge, m: Message)
    requires Good(b)
    ensures FateLaw(b, Arrive(m))
  {
    NoneWaiting(b, Home(b));
    var added := Added(b, Arrive(m));
    if added != [] {
      TryCommitFates(b.(queue := b.queue + added, accepted := b.accepted + added));
    }
  }

  lemma {:induction false} ContextFates(b: Bridge, e: Event)
    requires Good(b) && !e.CommitStateV1? && !e.DoneV2? && !e.Arrive?
    ensures FateLaw(b, e)
  {
    NoneWaiting(b, Home(b));
    NoneWaiting(b, Home(Apply(b, e)));
  }

  /**
    In every run of either protocol each event throws the waiting input away,
    delivers all of it because the gate is open, or leaves it waiting.
   */
  lemma {:induction false} FateInRun(protocol: Protocol, events: seq<Event>, e: Event)
    ensures FateLaw(Exec(Initial(protocol), events), e)
  {
    RunGood(protocol, events);
    FateOfEvent(Exec(Initial(protocol), events), e);
  }

  /* ---------- v1: the serial on each request ---------- */

  predicate HasSerial(r: Request, serial: nat) {
    match r
    case CommitStringV1(_, s, _) => s == serial
    case KeysymV1(_, s, _, _) => s == serial
    case _ => false
  }

  lemma {:induction false} SerialOfAll(b: Bridge, queue: seq<Typed>)
    requires !b.v2Active && b.context.Some?
    ensures forall i :: 0 <= i < |AllRequests(b, queue)| ==> HasSerial(AllRequests(b, queue)[i], b.serial)
  {
    if queue != [] {
      SerialOfAll(b, queue[..|queue| - 1]);
    }
  }

  lemma {:induction false} SerialOfNew(b: Bridge)
    requires !b.v2Active
    ensures |b.sent| <= |TryCommit(b).sent|
    ensures forall i :: |b.sent| <= i < |TryCommit(b).sent| ==> HasSerial(TryCommit(b).sent[i], b.serial)
  {
    if Active(b) {
      SerialOfAll(b, b.queue);
    }
  }

  /** Every v1 request carries the latest serial of its context at the time it is sent. */
  lemma {:induction false} SentWithLatestSerial(events: seq<Event>, i: nat)
    requires events != []
    requires |Exec(Initial(V1), events[..|events| - 1]).sent| <= i < |Exec(Initial(V1), events).sent|
    ensures HasSerial(Exec(Initial(V1), events).sent[i], LatestSerial(events))
  {
    var before, e := events[..|events| - 1], events[|events| - 1];
    var b := Exec(Initial(V1), before);
    RunGood(V1, before);
    GatesV1(events);
    if e.Arrive? {
      var b1 := b.(queue := b.queue + Added(b, e), accepted := b.accepted + Added(b, e));
      SerialOfNew(b1);
    } else if e.CommitStateV1? {
      SerialOfNew(b.(serial := e.serial % WORD, haveSerial := true));
    }
  }
}
