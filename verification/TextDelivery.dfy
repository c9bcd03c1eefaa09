/**
  What typed input does to the text of the application in input-method v2
  (wayland-ime-bridge/input-method-unstable-v2.xml:206-306): strings and
  deletions are pending state, each replaces the one before, and a commit
  applies the deletion first and the string after it.
 */
module TextDelivery {
  import opened Common
  import opened ImeBridge

  /** The application's text on both sides of the cursor. */
  datatype Field = Field(left: seq<Byte>, right: seq<Byte>)

  const BACKSPACE: nat := 0xff08
  const DELETE: nat := 0xffff
  const RETURN: nat := 0xff0d
  const TAB: nat := 0xff09

  /* ---------- what the user means ---------- */

  predicate Presses(m: Message, sym: nat) {
    m == Keysym(sym, PRESSED)
  }

  /** The string a message stands for. */
  function Inserted(m: Message): seq<Byte> {
    if m.Text? then m.bytes else if Presses(m, RETURN) then [10] else if Presses(m, TAB) then [9] else []
  }

  function Type(f: Field, m: Message): Field {
    if Presses(m, BACKSPACE) then f.(left := f.left[..if |f.left| > 0 then |f.left| - 1 else 0])
    else if Presses(m, DELETE) then f.(right := f.right[if |f.right| > 0 then 1 else 0..])
    else f.(left := f.left + Inserted(m))
  }

  function TypeAll(f: Field, ms: seq<Message>): Field {
    if ms == [] then f else Type(TypeAll(f, ms[..|ms| - 1]), ms[|ms| - 1])
  }

  /* ---------- what the compositor does ---------- */

  /** Delete `before` bytes before and `after` bytes after the cursor, then insert. */
  datatype Edit = Edit(before: nat, text: seq<Byte>, after: nat)

  const NOTHING := Edit(0, [], 0)

  function Min(a: nat, b: nat): nat {
    if a < b then a else b
  }

  function Perform(f: Field, e: Edit): Field {
    Field(f.left[..|f.left| - Min(e.before, |f.left|)] + e.text, f.right[Min(e.after, |f.right|)..])
  }

  datatype Input = Input(field: Field, pending: Edit)

  function Receive(c: Input, r: Request): Input {
    match r
    case CommitStringV2(text) => c.(pending := c.pending.(text := text))
    case DeleteV2(before, after) => c.(pending := c.pending.(before := before, after := after))
    case CommitV2(_, _) => Input(Perform(c.field, c.pending), NOTHING)
    case _ => c
  }

  function ReceiveAll(c: Input, rs: seq<Request>): Input {
    if rs == [] then c else Receive(ReceiveAll(c, rs[..|rs| - 1]), rs[|rs| - 1])
  }

  lemma {:induction false} ReceiveConcat(c: Input, a: seq<Request>, b: seq<Request>)
    ensures ReceiveAll(c, a + b) == ReceiveAll(ReceiveAll(c, a), b)
    decreases b
  {
    if b == [] {
      assert a + b == a;
    } else {
      ReceiveConcat(c, a, b[..|b| - 1]);
      assert (a + b)[..|a + b| - 1] == a + b[..|b| - 1];
    }
  }

  lemma {:induction false} ReceiveOne(c: Input, r: Request)
    ensures ReceiveAll(c, [r]) == Receive(c, r)
  {
    assert [r][..0] == [];
  }

  lemma {:induction false} TypeConcat(f: Field, a: seq<Message>, b: seq<Message>)
    ensures TypeAll(f, a + b) == TypeAll(TypeAll(f, a), b)
    decreases b
  {
    if b == [] {
      assert a + b == a;
    } else {
      TypeConcat(f, a, b[..|b| - 1]);
      assert (a + b)[..|a + b| - 1] == a + b[..|b| - 1];
    }
  }

  /* ---------- both as one edit ---------- */

  /** Typing, summed up: a backspace takes back what was typed just before it. */
  function Net(ms: seq<Message>): Edit {
    if ms == [] then NOTHING
    else
      var e, m := Net(ms[..|ms| - 1]), ms[|ms| - 1];
      if Presses(m, BACKSPACE) then
        (if e.text == [] then e.(before := e.before + 1) else e.(text := e.text[..|e.text| - 1]))
      else if Presses(m, DELETE) then e.(after := e.after + 1)
      else e.(text := e.text + Inserted(m))
  }

  /** The same messages as pending state: only the last string and the last deletion count. */
  function Buffered(ms: seq<Message>): Edit {
    if ms == [] then NOTHING
    else
      var e, m := Buffered(ms[..|ms| - 1]), ms[|ms| - 1];
      if Presses(m, BACKSPACE) then e.(before := 1, after := 0)
      else if Presses(m, DELETE) then e.(before := 0, after := 1)
      else if m.Text? || Presses(m, RETURN) || Presses(m, TAB) then e.(text := Inserted(m))
      else e
  }

  lemma {:induction false} TypingIsNet(f: Field, ms: seq<Message>)
    ensures TypeAll(f, ms) == Perform(f, Net(ms))
  {
    if ms == [] {
      assert f.left[..|f.left|] == f.left && f.right[0..] == f.right;
    } else {
      var fewer, m := ms[..|ms| - 1], ms[|ms| - 1];
      TypingIsNet(f, fewer);
      OneMoreTyped(f, Net(fewer), m, Net(ms));
    }
  }

  lemma {:induction false} OneMoreTyped(f: Field, e: Edit, m: Message, e': Edit)
    requires e' ==
      if Presses(m, BACKSPACE) then
        (if e.text == [] then e.(before := e.before + 1) else e.(text := e.text[..|e.text| - 1]))
      else if Presses(m, DELETE) then e.(after := e.after + 1)
      else e.(text := e.text + Inserted(m))
    ensures Type(Perform(f, e), m) == Perform(f, e')
  {
    var base := f.left[..|f.left| - Min(e.before, |f.left|)];
    if Presses(m, BACKSPACE) {
      if e.text == [] {
        assert base + [] == base;
      } else {
        assert (base + e.text)[..|base + e.text| - 1] == base + e.text[..|e.text| - 1];
      }
    } else if Presses(m, DELETE) {
      assert f.right[Min(e.after, |f.right|)..][if Min(e.after, |f.right|) < |f.right| then 1 else 0..] == f.right[Min(e.after + 1, |f.right|)..];
    } else {
      assert base + e.text + Inserted(m) == base + (e.text + Inserted(m));
    }
  }

  function Messages(queue: seq<Typed>): seq<Message> {
    seq(|queue|, i requires 0 <= i < |queue| => queue[i].message)
  }

  lemma {:induction false} RequestsPend(b: Bridge, f: Field, queue: seq<Typed>)
    requires b.v2Active
    ensures ReceiveAll(Input(f, NOTHING), AllRequests(b, queue)) == Input(f, Buffered(Messages(queue)))
  {
    if queue != [] {
      var fewer, m := queue[..|queue| - 1], queue[|queue| - 1].message;
      RequestsPend(b, f, fewer);
      assert Messages(queue)[..|queue| - 1] == Messages(fewer);
      ReceiveConcat(Input(f, NOTHING), AllRequests(b, fewer), RequestsFor(b, m));
      OneMorePends(b, Input(f, Buffered(Messages(fewer))), m);
    }
  }

  lemma {:induction false} OneMorePends(b: Bridge, c: Input, m: Message)
    requires b.v2Active
    ensures ReceiveAll(c, RequestsFor(b, m)) == c.(pending :=
      if Presses(m, BACKSPACE) then c.pending.(before := 1, after := 0)
      else if Presses(m, DELETE) then c.pending.(before := 0, after := 1)
      else if m.Text? || Presses(m, RETURN) || Presses(m, TAB) then c.pending.(text := Inserted(m))
      else c.pending)
  {
    var rs := RequestsFor(b, m);
    if rs != [] {
      assert rs == [rs[0]];
      ReceiveOne(c, rs[0]);
    }
  }

  lemma {:induction false} SilentPendsNothing(b: Bridge, queue: seq<Typed>)
    requires b.v2Active && AllRequests(b, queue) == []
    ensures Buffered(Messages(queue)) == NOTHING
  {
    RequestsPend(b, Field([], []), queue);
  }

  /** What one call of try_commit does to the application. */
  lemma {:induction false} BatchIsBuffered(b: Bridge, c: Input)
    requires b.v2Active && b.haveSerial && ReceiveAll(c, b.sent).pending == NOTHING
    ensures ReceiveAll(c, TryCommit(b).sent)
         == Input(Perform(ReceiveAll(c, b.sent).field, Buffered(Messages(b.queue))), NOTHING)
  {
    var c1, requests := ReceiveAll(c, b.sent), AllRequests(b, b.queue);
    var f := c1.field;
    assert f.left[..|f.left|] + [] == f.left && f.right[0..] == f.right;
    if b.queue != [] {
      if requests == [] {
        SilentPendsNothing(b, b.queue);
        assert TryCommit(b).sent == b.sent;
      } else {
        var commit := CommitV2(b.v2Serial, b.doneEvents);
        assert TryCommit(b).sent == b.sent + requests + [commit];
        ReceiveConcat(c, b.sent + requests, [commit]);
        ReceiveConcat(c, b.sent, requests);
        RequestsPend(b, f, b.queue);
        ReceiveOne(ReceiveAll(c1, requests), commit);
      }
    }
  }

  /* ---------- exactly when it is the same ---------- */

  /** Different edits differ on some text. */
  lemma {:induction false} EditsDiffer(e: Edit, e': Edit)
    requires e.before <= e'.before && e != e'
    ensures exists f :: Perform(f, e) != Perform(f, e')
  {
    var other: Byte := if e'.text != [] && e'.text[0] == 0 then 1 else 0;
    var f := Field(seq(e'.before, i => other), seq(e.after + e'.after, i => 0));
    var p, p' := Perform(f, e), Perform(f, e');
    assert |p.right| == e'.after && |p'.right| == e.after;
    assert p'.left == [] + e'.text == e'.text;
    if e.before < e'.before {
      assert p.left[0] == other;
    } else {
      assert p.left == e.text;
    }
  }

  predicate AsTyped(ms: seq<Message>) {
    Net(ms) == Buffered(ms)
  }

  /**
    Messages sent in one commit reach every application as typed exactly if the
    last string and the last deletion among them are all they amount to.
   */
  lemma {:induction false} BatchAsTypedIff(ms: seq<Message>)
    ensures AsTyped(ms) <==> forall f :: Perform(f, Buffered(ms)) == TypeAll(f, ms)
  {
    forall f
      ensures TypeAll(f, ms) == Perform(f, Net(ms))
    {
      TypingIsNet(f, ms);
    }
    if Net(ms) != Buffered(ms) {
      if Net(ms).before <= Buffered(ms).before {
        EditsDiffer(Net(ms), Buffered(ms));
      } else {
        EditsDiffer(Buffered(ms), Net(ms));
      }
      var f :| Perform(f, Net(ms)) != Perform(f, Buffered(ms));
      assert Perform(f, Buffered(ms)) != TypeAll(f, ms);
    }
  }

  lemma {:induction false} OneMessageAsTyped(m: Message)
    ensures AsTyped([m]) && AsTyped([])
  {
    assert [m][..0] == [];
    assert Net([m][..0]) == NOTHING && Buffered([m][..0]) == NOTHING;
    assert [] + Inserted(m) == Inserted(m);
  }

  /** Two strings queued before the first done: the application gets the second only. */
  lemma {:induction false} FirstStringLost(a: Byte, b: Byte)
    ensures Buffered([Text([a]), Text([b])]).text == [b] && Net([Text([a]), Text([b])]).text == [a, b]
    ensures !AsTyped([Text([a]), Text([b])])
  {
    var ms := [Text([a]), Text([b])];
    assert ms[..1] == [Text([a])] && ms[..1][..0] == [];
    assert Net(ms[..1]).text == [a];
    assert Buffered(ms).text == [b];
  }

  /* ---------- over runs ---------- */

  function DeliveredMessage(f: Fate): seq<Message> {
    if f.Delivered? then [f.typed.message] else []
  }

  function DeliveredMessages(fates: seq<Fate>): seq<Message> {
    FlatMap(DeliveredMessage, fates)
  }

  lemma {:induction false} DeliverAllMessages(queue: seq<Typed>, home: nat)
    ensures DeliveredMessages(DeliverAll(queue, home)) == Messages(queue)
  {
    if queue != [] {
      var fewer := queue[..|queue| - 1];
      DeliverAllMessages(fewer, home);
      assert DeliverAll(queue, home)[..|queue| - 1] == DeliverAll(fewer, home);
    }
  }

  lemma {:induction false} DiscardAllMessages(queue: seq<Typed>)
    ensures DeliveredMessages(DiscardAll(queue)) == []
  {
    if queue != [] {
      DiscardAllMessages(queue[..|queue| - 1]);
      assert DiscardAll(queue)[..|queue| - 1] == DiscardAll(queue[..|queue| - 1]);
    }
  }

  /** The application's text is what typing the delivered messages makes of it. */
  ghost predicate Faithful(b: Bridge, f: Field) {
    ReceiveAll(Input(f, NOTHING), b.sent) == Input(TypeAll(f, DeliveredMessages(b.fates)), NOTHING)
  }

  lemma {:induction false} CommitFaithful(b: Bridge, f: Field)
    requires Faithful(b, f) && b.context == None && AsTyped(Messages(b.queue))
    ensures Faithful(TryCommit(b), f)
  {
    if Active(b) && b.haveSerial && b.queue != [] {
      BatchIsBuffered(b, Input(f, NOTHING));
      BatchAsTypedIff(Messages(b.queue));
      DeliverAllMessages(b.queue, Home(b));
      FlatMapConcat(DeliveredMessage, b.fates, DeliverAll(b.queue, Home(b)));
      TypeConcat(f, DeliveredMessages(b.fates), Messages(b.queue));
    }
  }

  lemma {:induction false} ClearFaithful(b: Bridge, f: Field)
    requires Faithful(b, f)
    ensures Faithful(ClearPending(b), f)
  {
    FlatMapConcat(DeliveredMessage, b.fates, DiscardAll(b.queue));
    DiscardAllMessages(b.queue);
    assert DeliveredMessages(b.fates) + [] == DeliveredMessages(b.fates);
  }

  lemma {:induction false} ArrivalFaithful(b: Bridge, m: Message, f: Field)
    requires Good(b) && b.protocol == V2 && Faithful(b, f)
    ensures Faithful(Apply(b, Arrive(m)), f)
  {
    if Active(b) && |b.queue| < MAX_QUEUED_MESSAGES {
      var typed := Typed(m, Home(b));
      var b1 := b.(queue := b.queue + [typed], accepted := b.accepted + [typed]);
      if b.haveSerial {
        assert b1.queue == [typed] && Messages(b1.queue) == [m];
        OneMessageAsTyped(m);
        CommitFaithful(b1, f);
      }
    }
  }

  lemma {:induction false} DoneFaithful(b: Bridge, f: Field)
    requires b.protocol == V2 && b.context == None && Faithful(b, f) && AsTyped(Messages(b.queue))
    ensures Faithful(Apply(b, DoneV2), f)
  {
    var serial := (b.v2Serial + 1) % WORD;
    var b1 := b.(v2Serial := serial, serial := serial, haveSerial := b.v2Active, doneEvents := b.doneEvents + 1);
    assert b1.sent == b.sent && b1.fates == b.fates && b1.queue == b.queue;
    CommitFaithful(b1, f);
  }

  lemma {:induction false} EventFaithful(b: Bridge, e: Event, f: Field)
    requires Good(b) && b.protocol == V2 && Faithful(b, f) && (e.DoneV2? ==> AsTyped(Messages(b.queue)))
    ensures Faithful(Apply(b, e), f)
  {
    match e
    case DoneV2 => DoneFaithful(b, f);
    case Arrive(m) => ArrivalFaithful(b, m, f);
    case DeactivateV2 => ClearFaithful(b.(v2Active := false, haveSerial := false), f);
    case UnavailableV2 => ClearFaithful(b.(v2Active := false, haveSerial := false), f);
    case _ =>
  }

  /**
    In every v2 run whose done events find nothing queued that one commit would
    garble, any application ends up with exactly what the delivered messages type.
   */
  lemma {:induction false} TextArrivesAsTyped(events: seq<Event>, f: Field)
    requires forall k :: 0 <= k < |events| && events[k].DoneV2? ==> AsTyped(Messages(Exec(Initial(V2), events[..k]).queue))
    ensures var b := Exec(Initial(V2), events);
      ReceiveAll(Input(f, NOTHING), b.sent) == Input(TypeAll(f, DeliveredMessages(b.fates)), NOTHING)
  {
    if events != [] {
      var before := events[..|events| - 1];
      forall k | 0 <= k < |before| && before[k].DoneV2?
        ensures AsTyped(Messages(Exec(Initial(V2), before[..k]).queue))
      {
        assert before[..k] == events[..k];
      }
      TextArrivesAsTyped(before, f);
      RunGood(V2, before);
      EventFaithful(Exec(Initial(V2), before), events[|events| - 1], f);
    }
  }
}
