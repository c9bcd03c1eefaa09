/**
  The framed byte stream of wayland-ime-bridge/src/main.c:393-439: a 4-byte
  big-endian header (top bit: control frame, rest: length), then the payload.
 */
module ImeFraming {
  import opened Common
  import opened ImeBridge

  const MAX_COMMIT_BYTES: nat := 65536
  const CAPACITY: nat := 4 + MAX_COMMIT_BYTES
  const CONTROL_FRAME_BIT: nat := 0x8000_0000
  const CONTROL_KEYSYM: nat := 1

  /* ---------- one frame ---------- */

  function BigEndian(b: seq<Byte>): nat
    requires |b| == 4
  {
    (b[0] as int) * 0x100_0000 + (b[1] as int) * 0x1_0000 + (b[2] as int) * 0x100 + b[3] as int
  }

  function ToBigEndian(n: nat): (b: seq<Byte>)
    requires n < WORD
    ensures |b| == 4
  {
    [n / 0x100_0000, n / 0x1_0000 % 0x100, n / 0x100 % 0x100, n % 0x100]
  }

  lemma BigEndianRoundTrip(n: nat)
    requires n < WORD
    ensures BigEndian(ToBigEndian(n)) == n
  {
    assert n / 0x100 / 0x100 == n / 0x1_0000;
    assert n / 0x1_0000 / 0x100 == n / 0x100_0000;
    assert n == n / 0x100 * 0x100 + n % 0x100;
    assert n / 0x100 == n / 0x1_0000 * 0x100 + n / 0x100 % 0x100;
    assert n / 0x1_0000 == n / 0x100_0000 * 0x100 + n / 0x1_0000 % 0x100;
  }

  function Header(bytes: seq<Byte>): nat
    requires |bytes| >= 4
  {
    BigEndian(bytes[..4])
  }

  function Length(bytes: seq<Byte>): nat
    requires |bytes| >= 4
  {
    Header(bytes) % CONTROL_FRAME_BIT
  }

  predicate Control(bytes: seq<Byte>)
    requires |bytes| >= 4
  {
    Header(bytes) >= CONTROL_FRAME_BIT
  }

  /** enqueue_control and the text checks of consume_client; None is a malformed frame. */
  function Decode(control: bool, payload: seq<Byte>): Option<Message> {
    if control then
      if |payload| != 6 || payload[0] != CONTROL_KEYSYM || (payload[1] != 0 && payload[1] != 1) then None
      else Some(Keysym(BigEndian(payload[2..6]), payload[1]))
    else if 0 in payload then None
    else Some(Text(payload))
  }

  /** Without an active text input a frame is dropped before its payload is looked at. */
  function HandleFrame(b: Bridge, control: bool, payload: seq<Byte>): Option<Bridge> {
    if !Active(b) then Some(b)
    else
      var m := Decode(control, payload);
      if m.None? then None else Accept(b, m.value)
  }

  /* ---------- the stream ---------- */

  /** After an error the client is closed and its unread bytes are forgotten. */
  datatype Connection = Open(bridge: Bridge, pending: seq<Byte>) | Closed(bridge: Bridge)

  predicate Complete(bytes: seq<Byte>) {
    |bytes| >= 4 && 0 < Length(bytes) <= MAX_COMMIT_BYTES && |bytes| >= 4 + Length(bytes)
  }

  predicate BadLength(bytes: seq<Byte>) {
    |bytes| >= 4 && !(0 < Length(bytes) <= MAX_COMMIT_BYTES)
  }

  function Parse(b: Bridge, bytes: seq<Byte>): Connection
    decreases |bytes|
  {
    if BadLength(bytes) then Closed(b)
    else if !Complete(bytes) then Open(b, bytes)
    else
      var n := Length(bytes);
      var r := HandleFrame(b, Control(bytes), bytes[4..4 + n]);
      if r.None? then Closed(b) else Parse(r.value, bytes[4 + n..])
  }

  function Feed(c: Connection, chunk: seq<Byte>): Connection {
    if c.Closed? then c else Parse(c.bridge, c.pending + chunk)
  }

  function FeedAll(c: Connection, chunks: seq<seq<Byte>>): Connection {
    if chunks == [] then c else Feed(FeedAll(c, chunks[..|chunks| - 1]), chunks[|chunks| - 1])
  }

  lemma HeaderOfPrefix(x: seq<Byte>, y: seq<Byte>)
    requires |x| >= 4
    ensures Length(x + y) == Length(x) && Control(x + y) == Control(x)
  {
    assert (x + y)[..4] == x[..4];
  }

  /** Parsing can stop anywhere and be resumed with what was left. */
  lemma {:induction false} ParseResumes(b: Bridge, x: seq<Byte>, y: seq<Byte>)
    ensures Parse(b, x + y) == Feed(Parse(b, x), y)
    decreases |x|
  {
    if |x| >= 4 {
      HeaderOfPrefix(x, y);
      if Complete(x) {
        var n := Length(x);
        assert (x + y)[4..4 + n] == x[4..4 + n];
        assert (x + y)[4 + n..] == x[4 + n..] + y;
        var r := HandleFrame(b, Control(x), x[4..4 + n]);
        if r.Some? {
          ParseResumes(r.value, x[4 + n..], y);
        }
      }
    }
  }

  /** What is left after the inner loop never fills the buffer: the full-buffer exit is dead. */
  lemma {:induction false} LeftoverFits(b: Bridge, bytes: seq<Byte>)
    ensures var c := Parse(b, bytes); c.Open? ==> |c.pending| < CAPACITY && Settled(c)
    decreases |bytes|
  {
    if Complete(bytes) {
      var n := Length(bytes);
      var r := HandleFrame(b, Control(bytes), bytes[4..4 + n]);
      if r.Some? {
        LeftoverFits(r.value, bytes[4 + n..]);
      }
    }
  }

  /** Nothing more can be taken from the pending bytes. */
  predicate Settled(c: Connection) {
    c.Open? ==> Parse(c.bridge, c.pending) == c
  }

  lemma {:induction false} PendingShrinks(b: Bridge, bytes: seq<Byte>)
    ensures Parse(b, bytes).Open? ==> |Parse(b, bytes).pending| <= |bytes|
    decreases |bytes|
  {
    if Complete(bytes) {
      var n := Length(bytes);
      var r := HandleFrame(b, Control(bytes), bytes[4..4 + n]);
      if r.Some? {
        PendingShrinks(r.value, bytes[4 + n..]);
      }
    }
  }

  /** Being settled is a matter of the bytes alone: whatever the bridge does meanwhile, it stays. */
  lemma {:induction false} SettledIff(b: Bridge, bytes: seq<Byte>)
    ensures Settled(Open(b, bytes)) <==> !BadLength(bytes) && !Complete(bytes)
  {
    if !BadLength(bytes) && Complete(bytes) {
      var n := Length(bytes);
      var r := HandleFrame(b, Control(bytes), bytes[4..4 + n]);
      if r.Some? {
        PendingShrinks(r.value, bytes[4 + n..]);
      }
    }
  }

  /** However the stream is cut into reads, the outcome is that of parsing it whole. */
  lemma {:induction false} ChunkIndependent(c: Connection, chunks: seq<seq<Byte>>)
    requires Settled(c)
    ensures FeedAll(c, chunks) == Feed(c, Flatten<Byte>(chunks))
  {
    if chunks == [] {
      if c.Open? {
        assert c.pending + [] == c.pending;
      }
    } else {
      var fewer, last := chunks[..|chunks| - 1], chunks[|chunks| - 1];
      ChunkIndependent(c, fewer);
      FeedTwice(c, Flatten<Byte>(fewer), last);
    }
  }

  lemma {:induction false} FeedTwice(c: Connection, x: seq<Byte>, y: seq<Byte>)
    ensures Feed(Feed(c, x), y) == Feed(c, x + y)
  {
    if c.Open? {
      ParseResumes(c.bridge, c.pending + x, y);
      assert c.pending + x + y == c.pending + (x + y);
    }
  }

  /* ---------- reads between compositor events ---------- */

  datatype Input = Bytes(chunk: seq<Byte>) | Wayland(event: Event)

  function Take(c: Connection, i: Input): Connection {
    match i
    case Bytes(chunk) => Feed(c, chunk)
    case Wayland(event) => c.(bridge := Apply(c.bridge, event))
  }

  function TakeAll(c: Connection, inputs: seq<Input>): Connection {
    if inputs == [] then c else Take(TakeAll(c, inputs[..|inputs| - 1]), inputs[|inputs| - 1])
  }

  lemma {:induction false} TakeSettled(c: Connection, i: Input)
    requires Settled(c)
    ensures Settled(Take(c, i))
  {
    if c.Open? {
      match i
      case Bytes(chunk) => LeftoverFits(c.bridge, c.pending + chunk);
      case Wayland(event) =>
        SettledIff(c.bridge, c.pending);
        SettledIff(Apply(c.bridge, event), c.pending);
    }
  }

  lemma {:induction false} AllSettled(c: Connection, inputs: seq<Input>)
    requires Settled(c)
    ensures Settled(TakeAll(c, inputs))
  {
    if inputs != [] {
      AllSettled(c, inputs[..|inputs| - 1]);
      TakeSettled(TakeAll(c, inputs[..|inputs| - 1]), inputs[|inputs| - 1]);
    }
  }

  lemma {:induction false} TakeConcat(c: Connection, a: seq<Input>, b: seq<Input>)
    ensures TakeAll(c, a + b) == TakeAll(TakeAll(c, a), b)
    decreases |b|
  {
    if b == [] {
      assert a + b == a;
    } else {
      TakeConcat(c, a, b[..|b| - 1]);
      assert (a + b)[..|a + b| - 1] == a + b[..|b| - 1];
    }
  }

  function Reads(chunks: seq<seq<Byte>>): seq<Input> {
    seq(|chunks|, i requires 0 <= i < |chunks| => Bytes(chunks[i]))
  }

  lemma {:induction false} ReadsAreFeeds(c: Connection, chunks: seq<seq<Byte>>)
    ensures TakeAll(c, Reads(chunks)) == FeedAll(c, chunks)
  {
    if chunks != [] {
      ReadsAreFeeds(c, chunks[..|chunks| - 1]);
      assert Reads(chunks)[..|chunks| - 1] == Reads(chunks[..|chunks| - 1]);
    }
  }

  /**
    With compositor events in between as well: what arrives between two of them
    may be cut into reads in any way, anywhere in the run.
   */
  lemma {:induction false} ChunkIndependentBetweenEvents(c: Connection, before: seq<Input>, chunks: seq<seq<Byte>>, after: seq<Input>)
    requires Settled(c)
    ensures TakeAll(c, before + Reads(chunks) + after) == TakeAll(c, before + [Bytes(Flatten<Byte>(chunks))] + after)
  {
    var d := TakeAll(c, before);
    AllSettled(c, before);
    TakeConcat(c, before + Reads(chunks), after);
    TakeConcat(c, before, Reads(chunks));
    ReadsAreFeeds(d, chunks);
    ChunkIndependent(d, chunks);
    var whole := [Bytes(Flatten<Byte>(chunks))];
    TakeConcat(c, before + whole, after);
    TakeConcat(c, before, whole);
    assert whole[..0] == [] && TakeAll(d, whole) == Take(d, whole[0]);
  }

  /* ---------- encoding ---------- */

  predicate Sendable(m: Message) {
    match m
    case Text(bytes) => 0 < |bytes| <= MAX_COMMIT_BYTES && 0 !in bytes
    case Keysym(sym, state) => sym < WORD && state <= 1
  }

  function Encode(m: Message): seq<Byte>
    requires Sendable(m)
  {
    match m
    case Text(bytes) => ToBigEndian(|bytes|) + bytes
    case Keysym(sym, state) => ToBigEndian(CONTROL_FRAME_BIT + 6) + ([CONTROL_KEYSYM, state] + ToBigEndian(sym))
  }

  function EncodeAll(ms: seq<Message>): seq<Byte>
    requires forall m :: m in ms ==> Sendable(m)
  {
    if ms == [] then [] else Encode(ms[0]) + EncodeAll(ms[1..])
  }

  lemma EncodeDecodes(m: Message)
    requires Sendable(m)
    ensures var f := Encode(m);
      && Complete(f) && |f| == 4 + Length(f)
      && Decode(Control(f), f[4..]) == Some(m)
  {
    var f := Encode(m);
    match m
    case Text(bytes) =>
      BigEndianRoundTrip(|bytes|);
      assert f[..4] == ToBigEndian(|bytes|) && f[4..] == bytes;
    case Keysym(sym, state) =>
      BigEndianRoundTrip(CONTROL_FRAME_BIT + 6);
      BigEndianRoundTrip(sym);
      assert f[..4] == ToBigEndian(CONTROL_FRAME_BIT + 6);
      assert f[4..] == [CONTROL_KEYSYM, state] + ToBigEndian(sym);
      assert f[4..][2..6] == ToBigEndian(sym);
  }

  /** The bridge after taking messages in order; None once one is refused. */
  function AcceptAll(b: Bridge, ms: seq<Message>): Option<Bridge>
    decreases ms
  {
    if ms == [] then Some(b)
    else
      var r := Accept(b, ms[0]);
      if r.None? then None else AcceptAll(r.value, ms[1..])
  }

  lemma ParseFrame(b: Bridge, m: Message, tail: seq<Byte>)
    requires Active(b) && Sendable(m) && Accept(b, m).Some?
    ensures Parse(b, Encode(m) + tail) == Parse(Accept(b, m).value, tail)
    ensures Active(Accept(b, m).value)
  {
    var f := Encode(m);
    EncodeDecodes(m);
    HeaderOfPrefix(f, tail);
    assert (f + tail)[4..4 + Length(f)] == f[4..];
    assert (f + tail)[4 + Length(f)..] == tail;
  }

  /** Parsing encoded messages is taking exactly those messages, with nothing left over. */
  lemma {:induction false} ParseEncoded(b: Bridge, ms: seq<Message>, rest: seq<Byte>)
    requires Active(b) && (forall m :: m in ms ==> Sendable(m)) && AcceptAll(b, ms).Some?
    ensures Parse(b, EncodeAll(ms) + rest) == Parse(AcceptAll(b, ms).value, rest)
    decreases ms
  {
    if ms == [] {
      assert EncodeAll(ms) + rest == rest;
    } else {
      var tail := EncodeAll(ms[1..]) + rest;
      assert EncodeAll(ms) + rest == Encode(ms[0]) + tail;
      ParseFrame(b, ms[0], tail);
      ParseEncoded(Accept(b, ms[0]).value, ms[1..], rest);
    }
  }

  /* ---------- nothing but encodings is taken ---------- */

  lemma {:induction false} Digits(a: nat, b: nat, c: nat, d: nat)
    requires a < 256 && b < 256 && c < 256 && d < 256
    ensures var n := a * 0x100_0000 + b * 0x1_0000 + c * 0x100 + d;
      && n < WORD && n / 0x100_0000 == a && n / 0x1_0000 == a * 0x100 + b
      && n / 0x100 == a * 0x1_0000 + b * 0x100 + c && n % 0x100 == d
  {
  }

  lemma {:induction false} LowDigit(hi: nat, lo: nat)
    requires lo < 256
    ensures (hi * 0x100 + lo) % 0x100 == lo
  {
  }

  lemma {:induction false} BytesRoundTrip(b: seq<Byte>)
    requires |b| == 4
    ensures BigEndian(b) < WORD && ToBigEndian(BigEndian(b)) == b
  {
    Digits(b[0], b[1], b[2], b[3]);
    LowDigit(b[0], b[1]);
    LowDigit((b[0] as int) * 0x100 + b[1], b[2]);
  }

  /** The first frame of some bytes. */
  function FrameOf(bytes: seq<Byte>): seq<Byte>
    requires Complete(bytes)
  {
    bytes[..4 + Length(bytes)]
  }

  /** What decodes is the encoding of what it decodes to. */
  lemma {:induction false} DecodedIsEncoded(frame: seq<Byte>)
    requires Complete(frame) && |frame| == 4 + Length(frame) && Decode(Control(frame), frame[4..]).Some?
    ensures var m := Decode(Control(frame), frame[4..]).value; Sendable(m) && Encode(m) == frame
  {
    HeaderIs(frame);
    assert frame == frame[..4] + frame[4..];
    if Control(frame) {
      KeysymPayload(frame[4..]);
    }
  }

  lemma {:induction false} HeaderIs(frame: seq<Byte>)
    requires |frame| >= 4
    ensures Length(frame) + (if Control(frame) then CONTROL_FRAME_BIT else 0) < WORD
    ensures frame[..4] == ToBigEndian(Length(frame) + if Control(frame) then CONTROL_FRAME_BIT else 0)
  {
    BytesRoundTrip(frame[..4]);
    HeaderSum(BigEndian(frame[..4]));
  }

  lemma {:induction false} HeaderSum(h: nat)
    requires h < WORD
    ensures h % CONTROL_FRAME_BIT + (if h >= CONTROL_FRAME_BIT then CONTROL_FRAME_BIT else 0) == h
  {
  }

  lemma {:induction false} KeysymPayload(payload: seq<Byte>)
    requires |payload| == 6
    ensures BigEndian(payload[2..6]) < WORD
    ensures payload == [payload[0], payload[1]] + ToBigEndian(BigEndian(payload[2..6]))
  {
    BytesRoundTrip(payload[2..6]);
    assert payload == [payload[0], payload[1]] + payload[2..6];
  }

  ghost predicate IsEncoding(frame: seq<Byte>) {
    exists m :: Sendable(m) && Encode(m) == frame
  }

  /** A frame is well formed exactly if it encodes some message. */
  lemma {:induction false} DecodesIff(frame: seq<Byte>)
    requires Complete(frame) && |frame| == 4 + Length(frame)
    ensures Decode(Control(frame), frame[4..]).Some? <==> IsEncoding(frame)
  {
    if Decode(Control(frame), frame[4..]).Some? {
      DecodedIsEncoded(frame);
    }
    if IsEncoding(frame) {
      var m :| Sendable(m) && Encode(m) == frame;
      EncodeDecodes(m);
    }
  }

  /** The reason to drop a client: a length out of range, a frame that encodes nothing, or no room. */
  ghost predicate Rejects(b: Bridge, bytes: seq<Byte>) {
    BadLength(bytes) || (Complete(bytes) && (!IsEncoding(FrameOf(bytes)) || |b.queue| == MAX_QUEUED_MESSAGES))
  }

  lemma {:induction false} FirstFrame(b: Bridge, bytes: seq<Byte>) returns (m: Message)
    requires Active(b) && Complete(bytes) && !Rejects(b, bytes)
    ensures Sendable(m) && Encode(m) == FrameOf(bytes) && Accept(b, m).Some?
    ensures HandleFrame(b, Control(bytes), bytes[4..4 + Length(bytes)]) == Accept(b, m)
  {
    var frame := FrameOf(bytes);
    assert frame[..4] == bytes[..4] && frame[4..] == bytes[4..4 + Length(bytes)];
    DecodesIff(frame);
    DecodedIsEncoded(frame);
    m := Decode(Control(frame), frame[4..]).value;
  }

  lemma {:induction false} RejectedFrame(b: Bridge, bytes: seq<Byte>)
    requires Active(b) && Rejects(b, bytes)
    ensures Parse(b, bytes) == Closed(b)
  {
    if !BadLength(bytes) {
      var frame := FrameOf(bytes);
      assert frame[..4] == bytes[..4] && frame[4..] == bytes[4..4 + Length(bytes)];
      DecodesIff(frame);
    }
  }

  /**
    The converse of parsing encoded messages: the bytes taken are the encoding
    of the messages accepted, and what stops the parser is an incomplete frame
    or, exactly then closing the client, one of the three reasons to drop it.
   */
  lemma {:induction false} ParsedIsEncoded(b: Bridge, bytes: seq<Byte>) returns (ms: seq<Message>, rest: seq<Byte>)
    requires Active(b)
    ensures (forall m :: m in ms ==> Sendable(m)) && bytes == EncodeAll(ms) + rest && AcceptAll(b, ms).Some?
    ensures var b' := AcceptAll(b, ms).value;
      Parse(b, bytes) == if Rejects(b', rest) then Closed(b') else Open(b', rest)
    ensures !Complete(rest) || Rejects(AcceptAll(b, ms).value, rest)
    decreases |bytes|
  {
    if Rejects(b, bytes) || !Complete(bytes) {
      ms, rest := [], bytes;
      if Rejects(b, bytes) {
        RejectedFrame(b, bytes);
      }
    } else {
      var m := FirstFrame(b, bytes);
      var n := Length(bytes);
      var more: seq<Message>;
      more, rest := ParsedIsEncoded(Accept(b, m).value, bytes[4 + n..]);
      ms := [m] + more;
      assert bytes == FrameOf(bytes) + bytes[4 + n..];
      OneMoreEncoded(b, m, more, rest);
    }
  }

  lemma {:induction false} OneMoreEncoded(b: Bridge, m: Message, more: seq<Message>, rest: seq<Byte>)
    requires Sendable(m) && (forall x :: x in more ==> Sendable(x)) && Accept(b, m).Some?
    ensures forall x :: x in [m] + more ==> Sendable(x)
    ensures EncodeAll([m] + more) + rest == Encode(m) + (EncodeAll(more) + rest)
    ensures AcceptAll(b, [m] + more) == AcceptAll(Accept(b, m).value, more)
  {
    assert ([m] + more)[0] == m && ([m] + more)[1..] == more;
    ConcatAssoc(Encode(m), EncodeAll(more), rest);
  }

  /** What is left after skipping whole frames; None where a length is out of range. */
  function SkipFrames(bytes: seq<Byte>): Option<seq<Byte>>
    decreases |bytes|
  {
    if BadLength(bytes) then None
    else if !Complete(bytes) then Some(bytes)
    else SkipFrames(bytes[4 + Length(bytes)..])
  }

  /** Without a text input frames are skipped by their length alone, whatever they hold. */
  lemma {:induction false} SkippedWhenInactive(b: Bridge, bytes: seq<Byte>)
    requires !Active(b)
    ensures Parse(b, bytes) == if SkipFrames(bytes).None? then Closed(b) else Open(b, SkipFrames(bytes).value)
    decreases |bytes|
  {
    if !BadLength(bytes) && Complete(bytes) {
      SkippedWhenInactive(b, bytes[4 + Length(bytes)..]);
    }
  }

  function Deliveries(ms: seq<Message>, home: nat): seq<Fate> {
    seq(|ms|, i requires 0 <= i < |ms| => Delivered(Typed(ms[i], home), home))
  }

  lemma AcceptDelivers(b: Bridge, m: Message)
    requires Good(b) && Active(b) && b.haveSerial
    ensures var r := Accept(b, m);
      && r.Some? && r.value.fates == b.fates + Deliveries([m], Home(b)) && r.value.queue == []
      && Good(r.value) && Active(r.value) && r.value.haveSerial && Home(r.value) == Home(b)
  {
    AcceptGood(b, m);
    assert b.queue + [Typed(m, Home(b))] == [Typed(m, Home(b))];
  }

  lemma {:induction false} AcceptAllDelivers(b: Bridge, ms: seq<Message>)
    requires Good(b) && Active(b) && b.haveSerial
    ensures var r := AcceptAll(b, ms);
      r.Some? && r.value.fates == b.fates + Deliveries(ms, Home(b)) && r.value.queue == []
    decreases ms
  {
    if ms != [] {
      AcceptDelivers(b, ms[0]);
      AcceptAllDelivers(Accept(b, ms[0]).value, ms[1..]);
      DeliveriesSplit(b.fates, ms, Home(b));
    }
  }

  lemma DeliveriesSplit(fates: seq<Fate>, ms: seq<Message>, home: nat)
    requires ms != []
    ensures fates + Deliveries(ms, home) == fates + Deliveries([ms[0]], home) + Deliveries(ms[1..], home)
  {
  }

  /**
    Round trip: with a text input and its serial known, any messages, encoded,
    cut into any reads, are delivered exactly, in order, and nothing is left.
   */
  lemma EncodedMessagesAreDelivered(b: Bridge, ms: seq<Message>, chunks: seq<seq<Byte>>)
    requires Good(b) && Active(b) && b.haveSerial && (forall m :: m in ms ==> Sendable(m))
    requires Flatten<Byte>(chunks) == EncodeAll(ms)
    ensures var c := FeedAll(Open(b, []), chunks);
      c.Open? && c.pending == [] && c.bridge.fates == b.fates + Deliveries(ms, Home(b)) && c.bridge.queue == []
  {
    ChunkIndependent(Open(b, []), chunks);
    AcceptAllDelivers(b, ms);
    ParseEncoded(b, ms, []);
    assert [] + EncodeAll(ms) == EncodeAll(ms) + [] == EncodeAll(ms);
  }

  /* ---------- consume_client ---------- */

  /** memmove(buffer, buffer + from, used - from) */
  method MoveDown(buffer: array<Byte>, used: nat, from: nat)
    requires from <= used <= buffer.Length
    modifies buffer
    ensures buffer[..used - from] == old(buffer[from..used])
  {
    var i := 0;
    while i < used - from
      invariant 0 <= i <= used - from
      invariant forall k :: 0 <= k < i ==> buffer[k] == old(buffer[from + k])
      invariant forall k :: i <= k < used ==> buffer[k] == old(buffer[k])
    {
      buffer[i] := buffer[from + i];
      i := i + 1;
    }
  }

  datatype Progress = Taken | Incomplete | Refused

  /** One turn of the inner loop: the frame at the front of the buffer. */
  method TakeFrame(buffer: array<Byte>, filled: nat, b: Bridge) returns (used: nat, bridge: Bridge, progress: Progress)
    requires 4 <= filled <= buffer.Length == CAPACITY
    modifies buffer
    ensures progress.Taken? ==> used < filled && Parse(bridge, buffer[..used]) == Parse(b, old(buffer[..filled]))
    ensures progress.Incomplete? ==> used == filled && Open(bridge, buffer[..used]) == Parse(b, old(buffer[..filled]))
    ensures progress.Refused? ==> used == filled && Closed(bridge) == Parse(b, old(buffer[..filled]))
  {
    used, bridge, progress := filled, b, Refused;
    var bytes := buffer[..filled];
    var header := BigEndian(bytes[..4]);
    var control, length := header >= CONTROL_FRAME_BIT, header % CONTROL_FRAME_BIT;
    if length == 0 || length > MAX_COMMIT_BYTES {
      return;
    }
    if used < 4 + length {
      progress := Incomplete;
      return;
    }
    var r := HandleFrame(b, control, bytes[4..4 + length]);
    if r.None? {
      return;
    }
    MoveDown(buffer, used, 4 + length);
    assert buffer[..used - (4 + length)] == bytes[4 + length..];
    used, bridge, progress := used - (4 + length), r.value, Taken;
  }

  /** The inner loop: handle complete frames until none is left or one is refused. */
  method DrainFrames(buffer: array<Byte>, filled: nat, b: Bridge) returns (used: nat, bridge: Bridge, ok: bool)
    requires filled <= buffer.Length == CAPACITY
    modifies buffer
    ensures used <= CAPACITY
    ensures (if ok then Open(bridge, buffer[..used]) else Closed(bridge)) == Parse(b, old(buffer[..filled]))
    ensures ok ==> used < CAPACITY
  {
    used, bridge, ok := filled, b, true;
    var progress := Taken;
    while used >= 4 && progress.Taken?
      invariant used <= CAPACITY && (ok <==> !progress.Refused?)
      invariant progress.Taken? ==> Parse(bridge, buffer[..used]) == Parse(b, old(buffer[..filled]))
      invariant progress.Incomplete? ==> Open(bridge, buffer[..used]) == Parse(b, old(buffer[..filled]))
      invariant progress.Refused? ==> Closed(bridge) == Parse(b, old(buffer[..filled]))
      decreases used, progress.Taken?
    {
      used, bridge, progress := TakeFrame(buffer, used, bridge);
      ok := !progress.Refused?;
    }
    LeftoverFits(b, old(buffer[..filled]));
  }

  /** read(fd, buffer + used, ...): n more bytes of the stream. */
  method ReadInto(buffer: array<Byte>, used: nat, data: seq<Byte>)
    requires used + |data| <= buffer.Length
    modifies buffer
    ensures buffer[..used + |data|] == old(buffer[..used]) + data
  {
    var i := 0;
    while i < |data|
      invariant 0 <= i <= |data|
      invariant buffer[..used + i] == old(buffer[..used]) + data[..i]
    {
      buffer[used + i] := data[i];
      i := i + 1;
    }
    assert data[..|data|] == data;
  }

  /** One turn of the outer loop. */
  method ReadAndDrain(buffer: array<Byte>, filled: nat, b: Bridge, data: seq<Byte>)
    returns (used: nat, bridge: Bridge, ok: bool)
    requires filled + |data| <= buffer.Length == CAPACITY
    modifies buffer
    ensures used <= CAPACITY && (ok ==> used < CAPACITY)
    ensures (if ok then Open(bridge, buffer[..used]) else Closed(bridge)) == Feed(Open(b, old(buffer[..filled])), data)
  {
    ReadInto(buffer, filled, data);
    used, bridge, ok := DrainFrames(buffer, filled + |data|, b);
  }

  /**
    consume_client until the socket would block, by which time everything that
    arrived has been read: `sizes` is how much each read returns at most.
   */
  method ConsumeClient(buffer: array<Byte>, filled: nat, b: Bridge, stream: seq<Byte>, sizes: seq<nat>)
    returns (used: nat, bridge: Bridge, ok: bool)
    requires filled < buffer.Length == CAPACITY && Settled(Open(b, buffer[..filled]))
    modifies buffer
    ensures used <= CAPACITY && (ok ==> used < CAPACITY)
    ensures (if ok then Open(bridge, buffer[..used]) else Closed(bridge)) == Feed(Open(b, old(buffer[..filled])), stream)
  {
    used, bridge, ok := filled, b, true;
    ghost var c := Open(b, buffer[..filled]);
    var rest, k := stream, 0;
    while rest != [] && ok
      invariant used <= CAPACITY && (ok ==> used < CAPACITY)
      invariant c == if ok then Open(bridge, buffer[..used]) else Closed(bridge)
      invariant Settled(c) && Feed(c, rest) == Feed(Open(b, old(buffer[..filled])), stream)
      decreases |rest|
    {
      var room := if CAPACITY - used < |rest| then CAPACITY - used else |rest|;
      var n := if k < |sizes| && 0 < sizes[k] < room then sizes[k] else room;
      FeedSplit(c, rest, n);
      c := Feed(c, rest[..n]);
      used, bridge, ok := ReadAndDrain(buffer, used, bridge, rest[..n]);
      rest, k := rest[n..], k + 1;
    }
    FedAll(c, rest);
  }

  lemma {:induction false} FeedSplit(c: Connection, rest: seq<Byte>, n: nat)
    requires n <= |rest| && c.Open?
    ensures Feed(c, rest) == Feed(Feed(c, rest[..n]), rest[n..]) && Settled(Feed(c, rest[..n]))
  {
    FeedTwice(c, rest[..n], rest[n..]);
    assert rest[..n] + rest[n..] == rest;
    LeftoverFits(c.bridge, c.pending + rest[..n]);
  }

  lemma {:induction false} FedAll(c: Connection, rest: seq<Byte>)
    requires Settled(c) && (rest == [] || c.Closed?)
    ensures Feed(c, rest) == c
  {
    if c.Open? {
      assert c.pending + rest == c.pending;
    }
  }

  /** Wake-ups of one client connection, compositor events in between. */
  method ServeClient(buffer: array<Byte>, b: Bridge, inputs: seq<Input>, sizes: seq<nat>)
    returns (used: nat, bridge: Bridge, ok: bool)
    requires buffer.Length == CAPACITY
    modifies buffer
    ensures used <= CAPACITY
    ensures (if ok then Open(bridge, buffer[..used]) else Closed(bridge)) == TakeAll(Open(b, []), inputs)
  {
    used, bridge, ok := 0, b, true;
    ghost var start := Open(b, []);
    assert buffer[..0] == [];
    SettledIff(b, []);
    var i := 0;
    while i < |inputs|
      invariant i <= |inputs| && used <= CAPACITY && (ok ==> used < CAPACITY)
      invariant (if ok then Open(bridge, buffer[..used]) else Closed(bridge)) == TakeAll(start, inputs[..i])
    {
      assert inputs[..i + 1][..i] == inputs[..i];
      AllSettled(start, inputs[..i]);
      match inputs[i] {
        case Wayland(event) => bridge := Apply(bridge, event);
        case Bytes(chunk) =>
          if ok {
            used, bridge, ok := ConsumeClient(buffer, used, bridge, chunk, sizes);
          }
      }
      i := i + 1;
    }
    assert inputs[..i] == inputs;
  }
}
