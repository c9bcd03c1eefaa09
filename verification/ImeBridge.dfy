/**
  The queue and serial gate of wayland-ime-bridge/src/main.c:71-326, in socket
  mode.  The bridge speaks either input-method v1 or v2, never both
  (lines 503-511); the queue starts empty.
 */
module ImeBridge {
  import opened Common

  type Byte = x: int | 0 <= x < 256
  type ContextId = nat

  const MAX_QUEUED_MESSAGES: nat := 128
  const WORD: nat := 0x1_0000_0000
  const PRESSED: nat := 1

  datatype Message = Text(bytes: seq<Byte>) | Keysym(sym: nat, state: nat)

  /** A message and the text context (v1) or activation (v2) it was typed into. */
  datatype Typed = Typed(message: Message, home: nat)

  datatype Protocol = V1 | V2

  datatype Request =
    | CommitStringV1(context: ContextId, serial: nat, text: seq<Byte>)
    | KeysymV1(context: ContextId, serial: nat, sym: nat, state: nat)
    | CommitStringV2(text: seq<Byte>)
    | DeleteV2(before: nat, after: nat)
    | CommitV2(serial: nat, doneEvents: nat)  // doneEvents: how many had been received

  datatype Fate =
    | Delivered(typed: Typed, home: nat)
    | Discarded(typed: Typed)

  /** `accepted`, `fates`, `doneEvents`, `activations` record the run. */
  datatype Bridge = Bridge(
    protocol: Protocol, context: Option<ContextId>, v2Active: bool,
    haveSerial: bool, serial: nat, v2Serial: nat,
    queue: seq<Typed>, sent: seq<Request>,
    accepted: seq<Typed>, fates: seq<Fate>, doneEvents: nat, activations: nat)

  function Initial(protocol: Protocol): Bridge {
    Bridge(protocol, None, false, false, 0, 0, [], [], [], [], 0, 0)
  }

  predicate Active(b: Bridge) {
    b.context.Some? || b.v2Active
  }

  /** Where a message arriving now belongs. */
  function Home(b: Bridge): nat {
    if b.v2Active then b.activations else if b.context.Some? then b.context.value else 0
  }

  /* ---------- try_commit ---------- */

  function RequestsV1(m: Message, context: ContextId, serial: nat): seq<Request> {
    match m
    case Text(bytes) => [CommitStringV1(context, serial, bytes)]
    case Keysym(sym, state) => [KeysymV1(context, serial, sym, state)]
  }

  /** v2 has text operations only: four pressed keys are translated, the rest is dropped. */
  function RequestsV2(m: Message): seq<Request> {
    match m
    case Text(bytes) => [CommitStringV2(bytes)]
    case Keysym(sym, state) =>
      if state != PRESSED then []
      else if sym == 0xff08 then [DeleteV2(1, 0)]
      else if sym == 0xffff then [DeleteV2(0, 1)]
      else if sym == 0xff0d then [CommitStringV2([10])]
      else if sym == 0xff09 then [CommitStringV2([9])]
      else []
  }

  function RequestsFor(b: Bridge, m: Message): seq<Request> {
    if b.v2Active then RequestsV2(m)
    else if b.context.Some? then RequestsV1(m, b.context.value, b.serial)
    else []
  }

  function AllRequests(b: Bridge, queue: seq<Typed>): seq<Request> {
    if queue == [] then [] else AllRequests(b, queue[..|queue| - 1]) + RequestsFor(b, queue[|queue| - 1].message)
  }

  function DeliverAll(queue: seq<Typed>, home: nat): seq<Fate> {
    seq(|queue|, i requires 0 <= i < |queue| => Delivered(queue[i], home))
  }

  function DiscardAll(queue: seq<Typed>): seq<Fate> {
    seq(|queue|, i requires 0 <= i < |queue| => Discarded(queue[i]))
  }

  function TryCommit(b: Bridge): Bridge {
    if !Active(b) || !b.haveSerial || b.queue == [] then b
    else
      var requests := AllRequests(b, b.queue);
      b.(queue := [], fates := b.fates + DeliverAll(b.queue, Home(b)),
         sent := b.sent + requests
                 + (if b.v2Active && requests != [] then [CommitV2(b.v2Serial, b.doneEvents)] else []))
  }

  function ClearPending(b: Bridge): Bridge {
    b.(queue := [], fates := b.fates + DiscardAll(b.queue))
  }

  /* ---------- events ---------- */

  datatype Event =
    | ActivateV1(context: ContextId)
    | DeactivateV1(context: ContextId)
    | ResetV1(context: ContextId)
    | CommitStateV1(context: ContextId, serial: nat)
    | ActivateV2
    | DeactivateV2
    | DoneV2
    | UnavailableV2
    | Arrive(message: Message)

  /** A message from the client; None when the queue is full and the client is dropped. */
  function Accept(b: Bridge, m: Message): Option<Bridge> {
    if !Active(b) then Some(b)
    else if |b.queue| == MAX_QUEUED_MESSAGES then None
    else
      var typed := Typed(m, Home(b));
      Some(TryCommit(b.(queue := b.queue + [typed], accepted := b.accepted + [typed])))
  }

  function Apply(b: Bridge, e: Event): Bridge {
    match e
    case ActivateV1(context) =>
      if b.protocol != V1 then b
      else (if b.context.Some? then ClearPending(b) else b).(context := Some(context), haveSerial := false)
    case DeactivateV1(context) =>
      if b.context != Some(context) then b else ClearPending(b).(context := None, haveSerial := false)
    case ResetV1(context) =>
      if b.context != Some(context) then b else ClearPending(b.(haveSerial := false))
    case CommitStateV1(context, serial) =>
      if b.context != Some(context) then b else TryCommit(b.(serial := serial % WORD, haveSerial := true))
    case ActivateV2 =>
      if b.protocol != V2 then b
      else b.(v2Active := true, haveSerial := false, activations := b.activations + 1)
    case DeactivateV2 =>
      if b.protocol != V2 then b else ClearPending(b.(v2Active := false, haveSerial := false))
    case UnavailableV2 =>
      if b.protocol != V2 then b else ClearPending(b.(v2Active := false, haveSerial := false))
    case DoneV2 =>
      if b.protocol != V2 then b
      else
        var serial := (b.v2Serial + 1) % WORD;
        TryCommit(b.(v2Serial := serial, serial := serial, haveSerial := b.v2Active, doneEvents := b.doneEvents + 1))
    case Arrive(m) =>
      var r := Accept(b, m);
      if r.Some? then r.value else b
  }

  function Exec(b: Bridge, events: seq<Event>): Bridge {
    if events == [] then b else Apply(Exec(b, events[..|events| - 1]), events[|events| - 1])
  }

  /* ---------- what every event keeps ---------- */

  function Subjects(fates: seq<Fate>): seq<Typed> {
    seq(|fates|, i requires 0 <= i < |fates| => fates[i].typed)
  }

  predicate SerialOk(r: Request) {
    r.CommitV2? ==> r.serial == r.doneEvents % WORD
  }

  predicate AtHome(f: Fate) {
    f.Delivered? ==> f.home == f.typed.home
  }

  ghost predicate AtRest(b: Bridge) {
    && (b.protocol == V1 ==> !b.v2Active) && (b.protocol == V2 ==> b.context == None)
    && |b.queue| <= MAX_QUEUED_MESSAGES
    && (!Active(b) || b.haveSerial ==> b.queue == [])
    && b.v2Serial == b.doneEvents % WORD
  }

  /** Messages leave in the order they came, each with exactly one fate. */
  ghost predicate Conserved(b: Bridge) {
    b.accepted == Subjects(b.fates) + b.queue
  }

  ghost predicate SerialsOk(b: Bridge) {
    forall i :: 0 <= i < |b.sent| ==> SerialOk(b.sent[i])
  }

  /** v1: what waits and what was delivered belongs to the context it was typed into. */
  ghost predicate HomesOk(b: Bridge) {
    b.protocol == V1 ==>
      && (forall i :: 0 <= i < |b.queue| ==> b.queue[i].home == Home(b))
      && (forall i :: 0 <= i < |b.fates| ==> AtHome(b.fates[i]))
  }

  ghost predicate Good(b: Bridge) {
    AtRest(b) && Conserved(b) && SerialsOk(b) && HomesOk(b)
  }

  lemma {:induction false} RequestsAreNotCommits(b: Bridge, queue: seq<Typed>)
    ensures forall i :: 0 <= i < |AllRequests(b, queue)| ==> !AllRequests(b, queue)[i].CommitV2?
  {
    if queue != [] {
      RequestsAreNotCommits(b, queue[..|queue| - 1]);
    }
  }

  lemma SubjectsConcat(a: seq<Fate>, b: seq<Fate>)
    ensures Subjects(a + b) == Subjects(a) + Subjects(b)
  {
  }

  /** `Good` up to the one thing try_commit is about to settle. */
  ghost predicate Ready(b: Bridge) {
    && (b.protocol == V1 ==> !b.v2Active) && (b.protocol == V2 ==> b.context == None)
    && |b.queue| <= MAX_QUEUED_MESSAGES
    && (!Active(b) ==> b.queue == [])
    && b.v2Serial == b.doneEvents % WORD
    && Conserved(b) && SerialsOk(b) && HomesOk(b)
  }

  lemma TryCommitGood(b: Bridge)
    requires Ready(b)
    ensures Good(TryCommit(b))
  {
    RequestsAreNotCommits(b, b.queue);
    SubjectsConcat(b.fates, DeliverAll(b.queue, Home(b)));
    assert Subjects(DeliverAll(b.queue, Home(b))) == b.queue;
  }

  lemma ClearPendingReady(b: Bridge)
    requires Ready(b)
    ensures Ready(ClearPending(b)) && ClearPending(b).queue == []
  {
    SubjectsConcat(b.fates, DiscardAll(b.queue));
    assert Subjects(DiscardAll(b.queue)) == b.queue;
  }

  lemma AcceptGood(b: Bridge, m: Message)
    requires Good(b)
    ensures Accept(b, m).Some? ==> Good(Accept(b, m).value)
  {
    if Active(b) && |b.queue| < MAX_QUEUED_MESSAGES {
      var typed := Typed(m, Home(b));
      var b1 := b.(queue := b.queue + [typed], accepted := b.accepted + [typed]);
      assert Subjects(b.fates) + b.queue + [typed] == Subjects(b.fates) + (b.queue + [typed]);
      TryCommitGood(b1);
    }
  }

  lemma ApplyGood(b: Bridge, e: Event)
    requires Good(b)
    ensures Good(Apply(b, e))
  {
    match e
    case CommitStateV1(context, serial) =>
      if b.context == Some(context) { TryCommitGood(b.(serial := serial % WORD, haveSerial := true)); }
    case DoneV2 =>
      if b.protocol == V2 {
        var serial := (b.v2Serial + 1) % WORD;
        NextSerial(b.doneEvents);
        TryCommitGood(b.(v2Serial := serial, serial := serial, haveSerial := b.v2Active, doneEvents := b.doneEvents + 1));
      }
    case Arrive(m) => AcceptGood(b, m);
    case ActivateV1(_) => ClearPendingReady(b);
    case DeactivateV1(_) => ClearPendingReady(b);
    case ResetV1(_) => ClearPendingReady(b);
    case DeactivateV2 => ClearPendingReady(b);
    case UnavailableV2 => ClearPendingReady(b);
    case ActivateV2 =>
  }

  lemma SmallSerial(n: nat)
    requires n < WORD
    ensures n % WORD == n
  {
  }

  lemma NextSerial(n: nat)
    ensures (n % WORD + 1) % WORD == (n + 1) % WORD
  {
  }

  lemma {:induction false} RunGood(protocol: Protocol, events: seq<Event>)
    ensures Good(Exec(Initial(protocol), events))
    ensures Exec(Initial(protocol), events).protocol == protocol
  {
    if events != [] {
      RunGood(protocol, events[..|events| - 1]);
      ApplyGood(Exec(Initial(protocol), events[..|events| - 1]), events[|events| - 1]);
    }
  }

  /** Every accepted message has one fate or still waits, in order of arrival; the queue stays bounded. */
  lemma FifoExactlyOnce(protocol: Protocol, events: seq<Event>)
    ensures var b := Exec(Initial(protocol), events);
      && b.accepted == Subjects(b.fates) + b.queue
      && |b.queue| <= MAX_QUEUED_MESSAGES
      && (Active(b) && b.haveSerial ==> b.queue == [])
      && (!Active(b) ==> b.queue == [])
  {
    RunGood(protocol, events);
  }

  /** Every v2 commit carries the number of done events received by then (modulo 2^32). */
  lemma CommitCarriesDoneCount(events: seq<Event>, i: nat)
    requires i < |Exec(Initial(V2), events).sent| && Exec(Initial(V2), events).sent[i].CommitV2?
    ensures var r := Exec(Initial(V2), events).sent[i]; r.serial == r.doneEvents % WORD
  {
    RunGood(V2, events);
    assert SerialOk(Exec(Initial(V2), events).sent[i]);
  }

  /* ---------- v1: what is sent is what was delivered ---------- */

  datatype Parcel = Parcel(home: nat, message: Message)

  function ParcelOf(r: Request): seq<Parcel> {
    match r
    case CommitStringV1(context, _, text) => [Parcel(context, Text(text))]
    case KeysymV1(context, _, sym, state) => [Parcel(context, Keysym(sym, state))]
    case _ => []
  }

  function Parcels(sent: seq<Request>): seq<Parcel> {
    FlatMap(ParcelOf, sent)
  }

  function DeliveredParcel(f: Fate): seq<Parcel> {
    if f.Delivered? then [Parcel(f.typed.home, f.typed.message)] else []
  }

  function DeliveredParcels(fates: seq<Fate>): seq<Parcel> {
    FlatMap(DeliveredParcel, fates)
  }

  lemma {:induction false} DiscardedParcels(queue: seq<Typed>)
    ensures DeliveredParcels(DiscardAll(queue)) == []
  {
    if queue != [] {
      DiscardedParcels(queue[..|queue| - 1]);
      assert DiscardAll(queue)[..|queue| - 1] == DiscardAll(queue[..|queue| - 1]);
    }
  }

  lemma {:induction false} SentIsDelivered(b: Bridge, queue: seq<Typed>)
    requires !b.v2Active && b.context.Some?
    requires forall i :: 0 <= i < |queue| ==> queue[i].home == b.context.value
    ensures Parcels(AllRequests(b, queue)) == DeliveredParcels(DeliverAll(queue, b.context.value))
  {
    if queue != [] {
      var fewer, last := queue[..|queue| - 1], queue[|queue| - 1];
      SentIsDelivered(b, fewer);
      FlatMapConcat(ParcelOf, AllRequests(b, fewer), RequestsFor(b, last.message));
      assert DeliverAll(queue, b.context.value)[..|queue| - 1] == DeliverAll(fewer, b.context.value);
      var r := RequestsFor(b, last.message);
      assert r[..0] == [] && Parcels(r) == [Parcel(b.context.value, last.message)];
    }
  }

  ghost predicate Shipped(b: Bridge) {
    Parcels(b.sent) == DeliveredParcels(b.fates)
  }

  lemma TryCommitShips(b: Bridge)
    requires b.protocol == V1 && Ready(b) && Shipped(b)
    ensures Shipped(TryCommit(b))
  {
    if Active(b) && b.haveSerial && b.queue != [] {
      SentIsDelivered(b, b.queue);
      FlatMapConcat(ParcelOf, b.sent, AllRequests(b, b.queue));
      FlatMapConcat(DeliveredParcel, b.fates, DeliverAll(b.queue, Home(b)));
      assert TryCommit(b).sent == b.sent + AllRequests(b, b.queue);
    }
  }

  lemma ClearShips(b: Bridge)
    requires Shipped(b)
    ensures Shipped(ClearPending(b))
  {
    FlatMapConcat(DeliveredParcel, b.fates, DiscardAll(b.queue));
    DiscardedParcels(b.queue);
  }

  lemma ApplyShips(b: Bridge, e: Event)
    requires b.protocol == V1 && Good(b) && Shipped(b)
    ensures Shipped(Apply(b, e))
  {
    match e
    case CommitStateV1(context, serial) =>
      if b.context == Some(context) { TryCommitShips(b.(serial := serial % WORD, haveSerial := true)); }
    case Arrive(m) =>
      if Active(b) && |b.queue| < MAX_QUEUED_MESSAGES {
        var typed := Typed(m, Home(b));
        var b1 := b.(queue := b.queue + [typed], accepted := b.accepted + [typed]);
        assert Subjects(b.fates) + b.queue + [typed] == Subjects(b.fates) + (b.queue + [typed]);
        TryCommitShips(b1);
      }
    case ActivateV1(_) => ClearShips(b);
    case DeactivateV1(_) => ClearShips(b);
    case ResetV1(_) => ClearShips(b);
    case _ =>
  }

  /**
    v1: the requests sent are the delivered messages, once each, in order of
    arrival, and each goes to the context it was typed into.
   */
  lemma {:induction false} SentOnceToOwnContext(events: seq<Event>)
    ensures var b := Exec(Initial(V1), events);
      && Parcels(b.sent) == DeliveredParcels(b.fates)
      && forall i :: 0 <= i < |b.fates| ==> AtHome(b.fates[i])
  {
    RunGood(V1, events);
    if events != [] {
      var before := events[..|events| - 1];
      SentOnceToOwnContext(before);
      RunGood(V1, before);
      ApplyShips(Exec(Initial(V1), before), events[|events| - 1]);
    }
  }

  /* ---------- v2: exactly when a message outlives its activation ---------- */

  /** The events after which nothing typed earlier still waits. */
  predicate Settles(e: Event) {
    e.DeactivateV2? || e.UnavailableV2? || e.DoneV2?
  }

  /** Event k activated again while input was queued, and nothing has settled it since. */
  ghost predicate StaleSince(events: seq<Event>, k: nat) {
    && k < |events| && events[k].ActivateV2? && Exec(Initial(V2), events[..k]).queue != []
    && forall m {:trigger events[m]} :: k < m < |events| ==> !Settles(events[m])
  }

  ghost predicate Stale(events: seq<Event>) {
    exists k :: StaleSince(events, k)
  }

  /** Some queued message was typed into an earlier activation. */
  ghost predicate Straddles(b: Bridge) {
    exists i :: 0 <= i < |b.queue| && b.queue[i].home != b.activations
  }

  ghost predicate HomesBelow(b: Bridge) {
    forall i :: 0 <= i < |b.queue| ==> b.queue[i].home <= b.activations
  }

  lemma {:induction false} StaleGrows(events: seq<Event>, e: Event)
    requires !e.ActivateV2?
    ensures Stale(events + [e]) <==> Stale(events) && !Settles(e)
  {
    var all := events + [e];
    if Stale(all) {
      var k: nat :| StaleSince(all, k);
      assert all[..k] == events[..k];
      assert all[|events|] == e && forall m :: 0 <= m < |events| ==> all[m] == events[m];
      assert StaleSince(events, k);
    }
    if Stale(events) && !Settles(e) {
      var k: nat :| StaleSince(events, k);
      assert all[..k] == events[..k];
      assert StaleSince(all, k);
    }
  }

  lemma {:induction false} StaleOnActivate(events: seq<Event>)
    requires Stale(events) ==> Exec(Initial(V2), events).queue != []
    ensures Stale(events + [ActivateV2]) <==> Exec(Initial(V2), events).queue != []
  {
    var all := events + [ActivateV2];
    assert all[..|events|] == events && all[|events|] == ActivateV2;
    if Stale(all) {
      var k: nat :| StaleSince(all, k);
      if k < |events| {
        assert all[..k] == events[..k];
        assert forall m :: 0 <= m < |events| ==> all[m] == events[m];
        assert StaleSince(events, k);
      }
    } else {
      assert !StaleSince(all, |events|);
    }
  }

  /** One event other than activate: what it does to the queue's homes and to the deliveries. */
  lemma {:induction false} QueueAfter(b: Bridge, e: Event)
    requires Good(b) && b.protocol == V2 && HomesBelow(b) && !e.ActivateV2?
    ensures HomesBelow(Apply(b, e)) && (Straddles(Apply(b, e)) <==> Straddles(b) && !Settles(e))
  {
    var b' := Apply(b, e);
    if e.Arrive? && Active(b) && |b.queue| < MAX_QUEUED_MESSAGES && !b.haveSerial {
      var typed := Typed(e.message, b.activations);
      assert b'.queue == b.queue + [typed];
      if Straddles(b) {
        var i :| 0 <= i < |b.queue| && b.queue[i].home != b.activations;
        assert b'.queue[i] == b.queue[i];
      }
    }
  }

  /** In every v2 run, queued input straddles activations exactly while such an activate is unsettled. */
  lemma {:induction false} StraddlesIff(events: seq<Event>)
    ensures var b := Exec(Initial(V2), events); HomesBelow(b) && (Straddles(b) <==> Stale(events))
  {
    if events != [] {
      var front, e := events[..|events| - 1], events[|events| - 1];
      var b := Exec(Initial(V2), front);
      StraddlesIff(front);
      RunGood(V2, front);
      assert events == front + [e];
      if e.ActivateV2? {
        StaleOnActivate(front);
        var b' := Apply(b, e);
        if b.queue != [] {
          assert b'.queue[0].home != b'.activations;
        }
      } else {
        StaleGrows(front, e);
        QueueAfter(b, e);
      }
    }
  }

  ghost predicate Crossed(fates: seq<Fate>) {
    exists i :: 0 <= i < |fates| && !AtHome(fates[i])
  }

  lemma {:induction false} CrossedConcat(a: seq<Fate>, b: seq<Fate>)
    ensures Crossed(a + b) <==> Crossed(a) || Crossed(b)
  {
    if Crossed(a) {
      var i :| 0 <= i < |a| && !AtHome(a[i]);
      assert (a + b)[i] == a[i];
    }
    if Crossed(b) {
      var i :| 0 <= i < |b| && !AtHome(b[i]);
      assert (a + b)[|a| + i] == b[i];
    }
  }

  lemma {:induction false} DeliveryCrosses(b: Bridge)
    ensures Crossed(DeliverAll(b.queue, b.activations)) <==> Straddles(b)
  {
    var fates := DeliverAll(b.queue, b.activations);
    if Straddles(b) {
      var i :| 0 <= i < |b.queue| && b.queue[i].home != b.activations;
      assert !AtHome(fates[i]);
    }
  }

  lemma {:induction false} NothingDelivered(queue: seq<Typed>)
    ensures !Crossed(DiscardAll(queue)) && !Crossed([])
  {
  }

  lemma {:induction false} ArrivalAtHome(b: Bridge, m: Message)
    requires Good(b) && b.protocol == V2
    ensures Crossed(Apply(b, Arrive(m)).fates) <==> Crossed(b.fates)
  {
    if Active(b) && |b.queue| < MAX_QUEUED_MESSAGES && b.haveSerial {
      var typed := Typed(m, b.activations);
      assert b.queue + [typed] == [typed];
      CrossedConcat(b.fates, DeliverAll([typed], b.activations));
    }
  }

  lemma {:induction false} DoneDelivers(b: Bridge)
    requires Good(b) && b.protocol == V2
    ensures Crossed(Apply(b, DoneV2).fates) <==> Crossed(b.fates) || Straddles(b)
  {
    DeliveryCrosses(b);
    CrossedConcat(b.fates, DeliverAll(b.queue, b.activations));
  }

  lemma {:induction false} FatesAfter(b: Bridge, e: Event)
    requires Good(b) && b.protocol == V2
    ensures Crossed(Apply(b, e).fates) <==> Crossed(b.fates) || (e.DoneV2? && Straddles(b))
  {
    match e
    case DoneV2 => DoneDelivers(b);
    case Arrive(m) => ArrivalAtHome(b, m);
    case DeactivateV2 => NothingDelivered(b.queue); CrossedConcat(b.fates, DiscardAll(b.queue));
    case UnavailableV2 => NothingDelivered(b.queue); CrossedConcat(b.fates, DiscardAll(b.queue));
    case _ =>
  }

  /**
    v2: in every run, some message is delivered to an activation it was not
    typed into exactly if an activate arrived while input was queued and a done
    came before anything else settled that queue.
   */
  lemma {:induction false} CrossesActivationIff(events: seq<Event>)
    ensures Crossed(Exec(Initial(V2), events).fates) <==> exists j :: 0 <= j < |events| && DeliversStale(events, j)
  {
    if events != [] {
      var n := |events| - 1;
      var front := events[..n];
      CrossesActivationIff(front);
      CrossesAtLast(events);
      forall j | 0 <= j < n
        ensures DeliversStale(front, j) <==> DeliversStale(events, j)
      {
        assert front[j] == events[j] && front[..j] == events[..j];
      }
    }
  }

  /** Event j is a done that finds queued input of an earlier activation. */
  ghost predicate DeliversStale(events: seq<Event>, j: nat) {
    j < |events| && events[j].DoneV2? && Stale(events[..j])
  }

  lemma {:induction false} CrossesAtLast(events: seq<Event>)
    requires events != []
    ensures Crossed(Exec(Initial(V2), events).fates) <==>
              Crossed(Exec(Initial(V2), events[..|events| - 1]).fates) || DeliversStale(events, |events| - 1)
  {
    var front := events[..|events| - 1];
    RunGood(V2, front);
    StraddlesIff(front);
    FatesAfter(Exec(Initial(V2), front), events[|events| - 1]);
  }

  /** Without an activate over queued input, every delivery is at home. */
  lemma {:induction false} StaysHome(events: seq<Event>)
    requires forall k {:trigger events[k]} :: 0 <= k < |events| && events[k].ActivateV2? ==>
               Exec(Initial(V2), events[..k]).queue == []
    ensures !Crossed(Exec(Initial(V2), events).fates)
  {
    CrossesActivationIff(events);
    forall j | 0 <= j < |events|
      ensures !Stale(events[..j])
    {
      forall k | 0 <= k < j
        ensures !StaleSince(events[..j], k)
      {
        assert events[..j][k] == events[k] && events[..j][..k] == events[..k];
      }
    }
  }

  lemma {:induction false} ExecAppend(b: Bridge, events: seq<Event>, e: Event)
    ensures Exec(b, events + [e]) == Apply(Exec(b, events), e)
  {
    assert (events + [e])[..|events + [e]| - 1] == events;
  }

  /** It happens: activate, a message, activate again, done. */
  lemma {:induction false} CrossingRun(m: Message)
    ensures Exec(Initial(V2), [ActivateV2] + [Arrive(m)] + [ActivateV2] + [DoneV2]).fates == [Delivered(Typed(m, 1), 2)]
    ensures !AtHome(Delivered(Typed(m, 1), 2))
  {
    var start := Initial(V2);
    ExecAppend(start, [], ActivateV2);
    assert [] + [ActivateV2] == [ActivateV2] && Exec(start, []) == start;
    ExecAppend(start, [ActivateV2], Arrive(m));
    ExecAppend(start, [ActivateV2] + [Arrive(m)], ActivateV2);
    ExecAppend(start, [ActivateV2] + [Arrive(m)] + [ActivateV2], DoneV2);
    TypeAndReactivate(m);
  }

  lemma {:induction false} TypeAndReactivate(m: Message)
    ensures Apply(Apply(Apply(Apply(Initial(V2), ActivateV2), Arrive(m)), ActivateV2), DoneV2).fates
         == [Delivered(Typed(m, 1), 2)]
  {
    var b2 := Apply(Apply(Initial(V2), ActivateV2), Arrive(m));
    TypedOnce(m);
    ReactivatedDelivers(b2, Typed(m, 1));
  }

  lemma {:induction false} TypedOnce(m: Message)
    ensures
      var b := Apply(Apply(Initial(V2), ActivateV2), Arrive(m));
      b.queue == [Typed(m, 1)] && b.fates == [] && b.v2Active && b.protocol == V2 && b.activations == 1
  {
    var b1 := Apply(Initial(V2), ActivateV2);
    assert b1.queue == [] && b1.activations == 1 && b1.v2Active && !b1.haveSerial;
    assert [] + [Typed(m, 1)] == [Typed(m, 1)];
  }

  lemma {:induction false} ReactivatedDelivers(b: Bridge, t: Typed)
    requires b.queue == [t] && b.fates == [] && b.v2Active && b.protocol == V2 && b.activations == 1
    ensures Apply(Apply(b, ActivateV2), DoneV2).fates == [Delivered(t, 2)]
  {
    assert [] + DeliverAll([t], 2) == [Delivered(t, 2)];
  }

  lemma {:induction false} SameRequests(b: Bridge, b': Bridge, queue: seq<Typed>)
    requires b'.v2Active == b.v2Active && b'.context == b.context && b'.serial == b.serial
    ensures AllRequests(b', queue) == AllRequests(b, queue)
  {
    if queue != [] {
      SameRequests(b, b', queue[..|queue| - 1]);
    }
  }

  lemma {:induction false} OneMoreRequest(b: Bridge, all: seq<Typed>, i: nat, before: seq<Request>)
    requires i < |all|
    ensures AllRequests(b, all[..i + 1]) == AllRequests(b, all[..i]) + RequestsFor(b, all[i].message)
    ensures before + AllRequests(b, all[..i]) + RequestsFor(b, all[i].message) == before + AllRequests(b, all[..i + 1])
  {
    assert all[..i + 1][..i] == all[..i];
  }

  /* ---------- the mutable bridge ---------- */

  class TextBridge {
    const protocol: Protocol
    var context: Option<ContextId>
    var v2Active: bool
    var haveSerial: bool
    var serial: nat
    var v2Serial: nat
    var queue: seq<Typed>
    var queuedMessages: nat
    var sent: seq<Request>
    ghost var accepted: seq<Typed>
    ghost var fates: seq<Fate>
    var doneEvents: nat
    var activations: nat
    ghost var history: seq<Event>

    ghost function Now(): Bridge
      reads this
    {
      Bridge(protocol, context, v2Active, haveSerial, serial, v2Serial, queue, sent,
             accepted, fates, doneEvents, activations)
    }

    /** The counter is the length of the list, and the state is that of the events so far. */
    ghost predicate Valid()
      reads this
    {
      queuedMessages == |queue| && Now() == Exec(Initial(protocol), history)
    }

    constructor (p: Protocol)
      ensures Valid() && protocol == p && history == []
    {
      protocol, context, v2Active, haveSerial, serial, v2Serial := p, None, false, false, 0, 0;
      queue, queuedMessages, sent, accepted, fates := [], 0, [], [], [];
      doneEvents, activations, history := 0, 0, [];
    }

    lemma Recorded(before: Bridge, events: seq<Event>, e: Event)
      requires before == Exec(Initial(protocol), events) && Now() == Apply(before, e)
      ensures Now() == Exec(Initial(protocol), events + [e])
    {
      assert (events + [e])[..|events + [e]| - 1] == events;
    }

    /** clear_pending_messages */
    method ClearPendingMessages()
      requires queuedMessages == |queue|
      modifies this`queue, this`queuedMessages, this`fates
      ensures queuedMessages == |queue| && Now() == ClearPending(old(Now()))
    {
      fates := fates + DiscardAll(queue);
      while queue != []
        invariant fates == old(fates) + DiscardAll(old(queue))
        decreases |queue|
      {
        queue := queue[1..];
      }
      queuedMessages := 0;
    }

    /** The popping loop of try_commit. */
    method SendQueue() returns (committed: nat)
      requires queuedMessages == |queue| && Active(Now())
      modifies this`queue, this`queuedMessages, this`sent
      ensures queue == [] && queuedMessages == 0
      ensures sent == old(sent) + AllRequests(old(Now()), old(queue))
      ensures committed == |AllRequests(old(Now()), old(queue))|
    {
      ghost var all, b := queue, Now();
      committed := 0;
      var i := 0;
      while queue != []
        invariant 0 <= i <= |all| && queue == all[i..] && queuedMessages == |queue|
        invariant sent == old(sent) + AllRequests(b, all[..i])
        invariant committed == |AllRequests(b, all[..i])|
        decreases |queue|
      {
        var message := queue[0].message;
        queue := queue[1..];
        queuedMessages := queuedMessages - 1;
        var requests := if v2Active then RequestsV2(message) else RequestsV1(message, context.value, serial);
        OneMoreRequest(b, all, i, old(sent));
        sent := sent + requests;
        committed := committed + |requests|;
        i := i + 1;
      }
      assert all[..i] == all;
    }

    /** try_commit: send everything, and for v2 commit once at the end. */
    method TryCommitQueue()
      requires queuedMessages == |queue|
      modifies this`queue, this`queuedMessages, this`fates, this`sent
      ensures queuedMessages == |queue| && Now() == TryCommit(old(Now()))
    {
      if (context == None && !v2Active) || !haveSerial || queue == [] {
        return;
      }
      fates := fates + DeliverAll(queue, Home(Now()));
      ghost var requests := AllRequests(Now(), queue);
      SameRequests(old(Now()), Now(), queue);
      var committed := SendQueue();
      if v2Active && committed != 0 {
        sent := sent + [CommitV2(v2Serial, doneEvents)];
      }
      assert sent == old(sent) + requests
                     + if v2Active && requests != [] then [CommitV2(v2Serial, doneEvents)] else [];
    }

    method OnActivateV1(c: ContextId)
      requires Valid() && protocol == V1
      modifies this
      ensures Valid() && history == old(history) + [ActivateV1(c)]
    {
      if context.Some? {
        ClearPendingMessages();
      }
      context := Some(c);
      haveSerial := false;
      Recorded(old(Now()), history, ActivateV1(c));
      history := history + [ActivateV1(c)];
    }

    method OnDeactivateV1(c: ContextId)
      requires Valid()
      modifies this
      ensures Valid() && history == old(history) + [DeactivateV1(c)]
    {
      if context == Some(c) {
        ClearPendingMessages();
        context := None;
        haveSerial := false;
      }
      Recorded(old(Now()), history, DeactivateV1(c));
      history := history + [DeactivateV1(c)];
    }

    method OnResetV1(c: ContextId)
      requires Valid()
      modifies this
      ensures Valid() && history == old(history) + [ResetV1(c)]
    {
      if context == Some(c) {
        haveSerial := false;
        ClearPendingMessages();
      }
      Recorded(old(Now()), history, ResetV1(c));
      history := history + [ResetV1(c)];
    }

    method OnCommitStateV1(c: ContextId, s: nat)
      requires Valid() && s < WORD
      modifies this
      ensures Valid() && history == old(history) + [CommitStateV1(c, s)]
    {
      if context == Some(c) {
        serial := s;
        haveSerial := true;
        ghost var before := Now();
        SmallSerial(s);
        TryCommitQueue();
        assert Apply(old(Now()), CommitStateV1(c, s)) == TryCommit(before);
      }
      Recorded(old(Now()), history, CommitStateV1(c, s));
      history := history + [CommitStateV1(c, s)];
    }

    method OnActivateV2()
      requires Valid() && protocol == V2
      modifies this
      ensures Valid() && history == old(history) + [ActivateV2]
    {
      v2Active := true;
      haveSerial := false;
      activations := activations + 1;
      Recorded(old(Now()), history, ActivateV2);
      history := history + [ActivateV2];
    }

    method OnDeactivateV2()
      requires Valid() && protocol == V2
      modifies this
      ensures Valid() && history == old(history) + [DeactivateV2]
    {
      v2Active := false;
      haveSerial := false;
      ClearPendingMessages();
      Recorded(old(Now()), history, DeactivateV2);
      history := history + [DeactivateV2];
    }

    method OnDoneV2()
      requires Valid() && protocol == V2
      modifies this
      ensures Valid() && history == old(history) + [DoneV2]
    {
      doneEvents := doneEvents + 1;
      v2Serial := (v2Serial + 1) % WORD;
      serial := v2Serial;
      haveSerial := v2Active;
      ghost var before := Now();
      TryCommitQueue();
      assert Apply(old(Now()), DoneV2) == TryCommit(before);
      Recorded(old(Now()), history, DoneV2);
      history := history + [DoneV2];
    }

    /** One frame of the client; false when the queue is full and the client must go. */
    method OnMessage(m: Message) returns (ok: bool)
      requires Valid()
      modifies this
      ensures Valid() && history == old(history) + [Arrive(m)]
      ensures ok <==> Accept(old(Now()), m).Some?
    {
      ok := true;
      if context.Some? || v2Active {
        if queuedMessages == MAX_QUEUED_MESSAGES {
          ok := false;
        } else {
          var typed := Typed(m, if v2Active then activations else context.value);
          queue := queue + [typed];
          queuedMessages := queuedMessages + 1;
          accepted := accepted + [typed];
          TryCommitQueue();
        }
      }
      Recorded(old(Now()), history, Arrive(m));
      history := history + [Arrive(m)];
    }
  }
}
