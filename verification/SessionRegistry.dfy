/**
  The PTY session registry of native/src/session.rs as a machine of atomic
  steps: openers, writers, closers and reaper threads interleave freely, each
  lock-protected or atomic operation being one step.
 */
module SessionRegistry {
  type SessionId = nat
  type Ref = nat     // one Arc<Session>
  type Thread = nat  // one caller inside get_open_session or Session::close

  datatype Listing = Unlisted | Listed | Delisted

  /** The reaper thread: waitpid, then four operations (session.rs:310-325). */
  datatype Reaper = NoReaper | Waiting | Reaped | Marked | Silenced | Forgotten | Reported

  /** `proot` tells the two ways of opening apart; only the other one gets a reaper. */
  datatype Session = Session(
    id: SessionId, listing: Listing, closed: bool, writer: bool, proot: bool, child: bool, reaper: Reaper)

  /** Where a caller of Session::close stands (session.rs:251-269). */
  datatype Stage = AtSwap | AtKill | AtWriter

  datatype Closer = Closer(ref: Ref, stage: Stage)

  /** A caller of get_open_session that holds the session but has not looked at `closed` (session.rs:231-243). */
  datatype Lookup = Lookup(id: SessionId, ref: Ref)

  datatype Event =
    | CloseDecided(id: SessionId, found: bool)  // what close(id) is going to return
    | Got(id: SessionId)                        // the registry held the id for get_open_session
    | LookedUp(id: SessionId, ok: bool)         // what get_open_session returned
    | Signalled(ref: Ref)                       // the SIGHUP/SIGTERM pair
    | Wrote(ref: Ref)
    | Exited(id: SessionId, ref: Ref)           // on_exited

  datatype State = State(
    nextId: SessionId, registry: map<SessionId, Ref>, sessions: map<Ref, Session>,
    lookups: map<Thread, Lookup>,
    held: set<Ref>,  // sessions some writer has looked up
    closers: map<Thread, Closer>, log: seq<Event>)

  const INITIAL := State(1, map[], map[], map[], {}, map[], [])

  datatype Step =
    | Open(ref: Ref, proot: bool)     // id taken, session object made
    | Insert(ref: Ref)                // into the registry
    | SpawnReaper(ref: Ref)
    | LookupGet(id: SessionId, w: Thread)   // the registry part of get_open_session
    | LookupCheck(w: Thread)                // its load of `closed`
    | Write(ref: Ref)
    | CloseRemove(id: SessionId, t: Thread)
    | Advance(t: Thread)              // next operation of Session::close
    | Reap(ref: Ref)                  // next operation of the reaper

  function SetSession(st: State, ref: Ref, x: Session): State {
    st.(sessions := st.sessions[ref := x])
  }

  function Log(st: State, e: Event): State {
    st.(log := st.log + [e])
  }

  function ApplyOpen(st: State, ref: Ref, proot: bool): State {
    if ref in st.sessions then st
    else
      SetSession(st, ref, Session(st.nextId, Unlisted, false, true, proot, proot, NoReaper)).(nextId := st.nextId + 1)
  }

  function ApplyInsert(st: State, ref: Ref): State {
    if ref !in st.sessions || st.sessions[ref].listing != Unlisted then st
    else
      var x := st.sessions[ref];
      SetSession(st, ref, x.(listing := Listed)).(registry := st.registry[x.id := ref])
  }

  function ApplySpawn(st: State, ref: Ref): State {
    if ref !in st.sessions then st
    else
      var x := st.sessions[ref];
      if x.listing == Unlisted || x.proot || x.reaper != NoReaper then st
      else SetSession(st, ref, x.(reaper := Waiting))
  }

  predicate ClosedSession(st: State, ref: Ref) {
    ref in st.sessions && st.sessions[ref].closed
  }

  function ApplyGet(st: State, id: SessionId, w: Thread): State {
    if w in st.lookups then st
    else if id !in st.registry then Log(st, LookedUp(id, false))
    else Log(st, Got(id)).(lookups := st.lookups[w := Lookup(id, st.registry[id])])
  }

  function ApplyCheck(st: State, w: Thread): State {
    if w !in st.lookups then st
    else
      var l := st.lookups[w];
      var st1 := st.(lookups := st.lookups - {w});
      if ClosedSession(st, l.ref) then Log(st1, LookedUp(l.id, false))
      else Log(st1, LookedUp(l.id, true)).(held := st.held + {l.ref})
  }

  function ApplyWrite(st: State, ref: Ref): State {
    if ref !in st.held || ref !in st.sessions || !st.sessions[ref].writer then st else Log(st, Wrote(ref))
  }

  function ApplyClose(st: State, id: SessionId, t: Thread): State {
    if t in st.closers then st
    else if id !in st.registry then Log(st, CloseDecided(id, false))
    else
      var ref := st.registry[id];
      var st1 := Log(st, CloseDecided(id, true)).(
                 registry := st.registry - {id}, closers := st.closers[t := Closer(ref, AtSwap)]);
      if ref in st.sessions then SetSession(st1, ref, st.sessions[ref].(listing := Delisted)) else st1
  }

  function ApplyAdvance(st: State, t: Thread): State {
    if t !in st.closers || st.closers[t].ref !in st.sessions then st
    else
      var c := st.closers[t];
      var x := st.sessions[c.ref];
      match c.stage
      case AtSwap =>
        if x.closed then st.(closers := st.closers - {t})
        else SetSession(st, c.ref, x.(closed := true)).(closers := st.closers[t := c.(stage := AtKill)])
      case AtKill =>
        var st1 := st.(closers := st.closers[t := c.(stage := AtWriter)]);
        if x.child then SetSession(st1, c.ref, x.(child := false)) else Log(st1, Signalled(c.ref))
      case AtWriter => SetSession(st, c.ref, x.(writer := false)).(closers := st.closers - {t})
  }

  function ApplyReap(st: State, ref: Ref): State {
    if ref !in st.sessions then st
    else
      var x := st.sessions[ref];
      match x.reaper
      case Waiting => SetSession(st, ref, x.(reaper := Reaped))
      case Reaped => SetSession(st, ref, x.(closed := true, reaper := Marked))
      case Marked => SetSession(st, ref, x.(writer := false, reaper := Silenced))
      case Silenced =>
        if x.id in st.registry && st.registry[x.id] == ref
        then SetSession(st, ref, x.(listing := Delisted, reaper := Forgotten)).(registry := st.registry - {x.id})
        else SetSession(st, ref, x.(reaper := Forgotten))
      case Forgotten => Log(SetSession(st, ref, x.(reaper := Reported)), Exited(x.id, ref))
      case _ => st
  }

  function Apply(st: State, step: Step): State {
    match step
    case Open(ref, proot) => ApplyOpen(st, ref, proot)
    case Insert(ref) => ApplyInsert(st, ref)
    case SpawnReaper(ref) => ApplySpawn(st, ref)
    case LookupGet(id, w) => ApplyGet(st, id, w)
    case LookupCheck(w) => ApplyCheck(st, w)
    case Write(ref) => ApplyWrite(st, ref)
    case CloseRemove(id, t) => ApplyClose(st, id, t)
    case Advance(t) => ApplyAdvance(st, t)
    case Reap(ref) => ApplyReap(st, ref)
  }

  function ExecFrom(st: State, steps: seq<Step>): State
    decreases |steps|
  {
    if steps == [] then st else Apply(ExecFrom(st, steps[..|steps| - 1]), steps[|steps| - 1])
  }

  function Exec(steps: seq<Step>): State {
    ExecFrom(INITIAL, steps)
  }

  /* ---------- invariant of sessions and registry ---------- */

  function Rank(r: Reaper): nat {
    match r
    case NoReaper => 0
    case Waiting => 1
    case Reaped => 2
    case Marked => 3
    case Silenced => 4
    case Forgotten => 5
    case Reported => 6
  }

  /** What one session's own fields always satisfy. */
  predicate FieldsOk(x: Session) {
    && (Rank(x.reaper) >= 1 ==> x.listing != Unlisted && !x.proot)
    && (Rank(x.reaper) >= 3 ==> x.closed)
    && (Rank(x.reaper) >= 4 ==> !x.writer)
    && (Rank(x.reaper) >= 5 ==> x.listing == Delisted)
  }

  /** One session against the registry. */
  predicate SessionOk(st: State, ref: Ref)
    requires ref in st.sessions
  {
    var x := st.sessions[ref];
    && x.id < st.nextId
    && (x.listing == Listed <==> x.id in st.registry && st.registry[x.id] == ref)
    && FieldsOk(x)
  }

  predicate EntryOk(st: State, id: SessionId)
    requires id in st.registry
  {
    st.registry[id] in st.sessions && st.sessions[st.registry[id]].id == id
  }

  predicate CloserOk(st: State, t: Thread)
    requires t in st.closers
  {
    var ref := st.closers[t].ref;
    ref in st.sessions && st.sessions[ref].listing == Delisted
  }

  ghost predicate Consistent(st: State) {
    && (forall ref {:trigger SessionOk(st, ref)} :: ref in st.sessions ==> SessionOk(st, ref))
    && (forall id {:trigger EntryOk(st, id)} :: id in st.registry ==> EntryOk(st, id))
    && (forall r, q {:trigger st.sessions[r], st.sessions[q]} ::
          r in st.sessions && q in st.sessions && st.sessions[r].id == st.sessions[q].id ==> r == q)
    && (forall t {:trigger CloserOk(st, t)} :: t in st.closers ==> CloserOk(st, t))
  }

  /* ---------- sessions only move one way ---------- */

  function ListRank(l: Listing): nat {
    match l
    case Unlisted => 0
    case Listed => 1
    case Delisted => 2
  }

  predicate Later(x: Session, y: Session) {
    && y.id == x.id && y.proot == x.proot
    && ListRank(x.listing) <= ListRank(y.listing)
    && (x.closed ==> y.closed)
    && (y.writer ==> x.writer)
    && Rank(x.reaper) <= Rank(y.reaper)
  }

  /** No session is lost, none goes back, and new ones carry new ids. */
  ghost predicate Evolves(st: State, st': State) {
    && st.nextId <= st'.nextId
    && (forall r {:trigger r in st'.sessions} {:trigger r in st.sessions} ::
          r in st.sessions ==> r in st'.sessions && Later(st.sessions[r], st'.sessions[r]))
    && (forall r {:trigger r in st'.sessions} ::
          r in st'.sessions && r !in st.sessions ==> st'.sessions[r].id >= st.nextId)
  }

  /* ---------- every step keeps the invariant and moves forward ---------- */

  /** A state that differs in one session only, its id, listing and registry entry untouched. */
  lemma {:induction false} UpdateConsistent(st: State, st': State, ref: Ref, x: Session)
    requires Consistent(st) && ref in st.sessions && st'.sessions == st.sessions[ref := x]
    requires x.id == st.sessions[ref].id && x.listing == st.sessions[ref].listing && FieldsOk(x) && Later(st.sessions[ref], x)
    requires st'.nextId == st.nextId && st'.registry == st.registry
    requires forall t :: t in st'.closers ==> t in st.closers && st'.closers[t].ref == st.closers[t].ref
    ensures Consistent(st') && Evolves(st, st')
  {
    forall r | r in st'.sessions
      ensures SessionOk(st', r)
    {
      assert SessionOk(st, r);
    }
    forall id | id in st'.registry
      ensures EntryOk(st', id)
    {
      assert EntryOk(st, id);
    }
    forall t | t in st'.closers
      ensures CloserOk(st', t)
    {
      assert CloserOk(st, t);
    }
  }

  /** A state that differs at most in log, held sessions and fewer closers. */
  lemma {:induction false} SameConsistent(st: State, st': State)
    requires Consistent(st) && st'.sessions == st.sessions && st'.nextId == st.nextId && st'.registry == st.registry
    requires forall t :: t in st'.closers ==> t in st.closers && st'.closers[t].ref == st.closers[t].ref
    ensures Consistent(st') && Evolves(st, st')
  {
    forall r | r in st'.sessions
      ensures SessionOk(st', r)
    {
      assert SessionOk(st, r);
    }
    forall id | id in st'.registry
      ensures EntryOk(st', id)
    {
      assert EntryOk(st, id);
    }
    forall t | t in st'.closers
      ensures CloserOk(st', t)
    {
      assert CloserOk(st, t);
    }
  }

  lemma {:induction false} OpenConsistent(st: State, ref: Ref, proot: bool)
    requires Consistent(st)
    ensures Consistent(ApplyOpen(st, ref, proot)) && Evolves(st, ApplyOpen(st, ref, proot))
  {
    if ref !in st.sessions {
      var st' := ApplyOpen(st, ref, proot);
      forall id | id in st'.registry
        ensures EntryOk(st', id) && id < st.nextId
      {
        assert EntryOk(st, id);
        assert SessionOk(st, st.registry[id]);
      }
      forall r | r in st'.sessions
        ensures SessionOk(st', r)
      {
        assert r != ref ==> SessionOk(st, r);
      }
      forall r, q | r in st'.sessions && q in st'.sessions && st'.sessions[r].id == st'.sessions[q].id
        ensures r == q
      {
        assert r != ref ==> SessionOk(st, r);
        assert q != ref ==> SessionOk(st, q);
      }
      forall t | t in st'.closers
        ensures CloserOk(st', t)
      {
        assert CloserOk(st, t);
      }
    }
  }

  lemma {:induction false} InsertConsistent(st: State, ref: Ref)
    requires Consistent(st)
    ensures Consistent(ApplyInsert(st, ref)) && Evolves(st, ApplyInsert(st, ref))
  {
    if ref in st.sessions && st.sessions[ref].listing == Unlisted {
      var st' := ApplyInsert(st, ref);
      forall r | r in st'.sessions
        ensures SessionOk(st', r)
      {
        assert SessionOk(st, r);
      }
      forall id | id in st'.registry
        ensures EntryOk(st', id)
      {
        if id != st.sessions[ref].id {
          assert EntryOk(st, id);
        }
      }
      forall t | t in st'.closers
        ensures CloserOk(st', t)
      {
        assert CloserOk(st, t);
      }
    }
  }

  /** Removing an id from the registry, with its session marked. */
  lemma {:induction false} DelistConsistent(st: State, st': State, ref: Ref, x: Session)
    requires Consistent(st) && ref in st.sessions && st.sessions[ref].listing == Listed
    requires x.id == st.sessions[ref].id && x.listing == Delisted && FieldsOk(x) && Later(st.sessions[ref], x)
    requires st'.sessions == st.sessions[ref := x] && st'.nextId == st.nextId && st'.registry == st.registry - {x.id}
    requires forall t :: t in st'.closers ==>
                           st'.closers[t].ref == ref || (t in st.closers && st'.closers[t].ref == st.closers[t].ref)
    ensures Consistent(st') && Evolves(st, st')
  {
    forall r | r in st'.sessions
      ensures SessionOk(st', r)
    {
      assert SessionOk(st, r);
    }
    forall id | id in st'.registry
      ensures EntryOk(st', id)
    {
      assert EntryOk(st, id);
    }
    forall t | t in st'.closers
      ensures CloserOk(st', t)
    {
      if st'.closers[t].ref != ref {
        assert CloserOk(st, t);
      }
    }
  }

  lemma {:induction false} CloseConsistent(st: State, id: SessionId, t: Thread)
    requires Consistent(st)
    ensures Consistent(ApplyClose(st, id, t)) && Evolves(st, ApplyClose(st, id, t))
  {
    var st' := ApplyClose(st, id, t);
    if t !in st.closers && id in st.registry {
      var ref := st.registry[id];
      assert EntryOk(st, id);
      assert SessionOk(st, ref);
      DelistConsistent(st, st', ref, st.sessions[ref].(listing := Delisted));
    } else {
      SameConsistent(st, st');
    }
  }

  lemma {:induction false} AdvanceConsistent(st: State, t: Thread)
    requires Consistent(st)
    ensures Consistent(ApplyAdvance(st, t)) && Evolves(st, ApplyAdvance(st, t))
  {
    var st' := ApplyAdvance(st, t);
    if t in st.closers && st.closers[t].ref in st.sessions {
      var c := st.closers[t];
      var x := st.sessions[c.ref];
      assert SessionOk(st, c.ref);
      var y := AdvancedSession(st, t);
      AdvanceShape(st, t);
      UpdateConsistent(st, st', c.ref, y);
    }
  }

  lemma {:induction false} AdvanceShape(st: State, t: Thread)
    requires t in st.closers && st.closers[t].ref in st.sessions
    ensures
      var x, y, st' := st.sessions[st.closers[t].ref], AdvancedSession(st, t), ApplyAdvance(st, t);
      && (FieldsOk(x) ==> FieldsOk(y)) && Later(x, y) && y.listing == x.listing
      && st'.sessions == st.sessions[st.closers[t].ref := y]
      && st'.nextId == st.nextId && st'.registry == st.registry
      && (forall u :: u in st'.closers ==> u in st.closers && st'.closers[u].ref == st.closers[u].ref)
  {
  }

  function AdvancedSession(st: State, t: Thread): Session
    requires t in st.closers && st.closers[t].ref in st.sessions
  {
    var x := st.sessions[st.closers[t].ref];
    match st.closers[t].stage
    case AtSwap => x.(closed := true)
    case AtKill => x.(child := false)
    case AtWriter => x.(writer := false)
  }

  lemma {:induction false} ReapConsistent(st: State, ref: Ref)
    requires Consistent(st)
    ensures Consistent(ApplyReap(st, ref)) && Evolves(st, ApplyReap(st, ref))
  {
    var st' := ApplyReap(st, ref);
    if ref in st.sessions {
      var x, y := st.sessions[ref], ReapedSession(st.sessions[ref]);
      assert SessionOk(st, ref);
      ReapShape(st, ref);
      if x.reaper == Silenced && x.listing == Listed {
        DelistConsistent(st, st', ref, y);
      } else {
        UpdateConsistent(st, st', ref, y);
      }
    }
  }

  function ReapedSession(x: Session): Session {
    match x.reaper
    case Waiting => x.(reaper := Reaped)
    case Reaped => x.(closed := true, reaper := Marked)
    case Marked => x.(writer := false, reaper := Silenced)
    case Silenced => x.(reaper := Forgotten, listing := if x.listing == Listed then Delisted else x.listing)
    case Forgotten => x.(reaper := Reported)
    case _ => x
  }

  lemma {:induction false} ReapedFields(x: Session)
    requires FieldsOk(x)
    ensures var y := ReapedSession(x);
      FieldsOk(y) && Later(x, y) && (x.reaper == Silenced && x.listing == Listed ==> y.listing == Delisted)
      && (!(x.reaper == Silenced && x.listing == Listed) ==> y.listing == x.listing)
  {
  }

  lemma {:induction false} ReapShape(st: State, ref: Ref)
    requires ref in st.sessions && SessionOk(st, ref)
    ensures
      var x, y, st' := st.sessions[ref], ReapedSession(st.sessions[ref]), ApplyReap(st, ref);
      && FieldsOk(y) && Later(x, y) && (x.reaper == Silenced && x.listing == Listed ==> y.listing == Delisted)
      && (!(x.reaper == Silenced && x.listing == Listed) ==> y.listing == x.listing)
      && st'.sessions == st.sessions[ref := y] && st'.nextId == st.nextId
      && st'.registry == (if x.reaper == Silenced && x.listing == Listed then st.registry - {x.id} else st.registry)
      && st'.closers == st.closers
  {
    ReapedFields(st.sessions[ref]);
    ReapedSessions(st, ref);
    ReapedRegistry(st, ref);
    ReapKeeps(st, ref);
  }

  lemma {:induction false} ReapedSessions(st: State, ref: Ref)
    requires ref in st.sessions && SessionOk(st, ref)
    ensures ApplyReap(st, ref).sessions == st.sessions[ref := ReapedSession(st.sessions[ref])]
  {
  }

  lemma {:induction false} ReapedRegistry(st: State, ref: Ref)
    requires ref in st.sessions && SessionOk(st, ref)
    ensures var x := st.sessions[ref];
      ApplyReap(st, ref).registry == if x.reaper == Silenced && x.listing == Listed then st.registry - {x.id} else st.registry
  {
  }

  lemma {:induction false} ReapKeeps(st: State, ref: Ref)
    ensures ApplyReap(st, ref).lookups == st.lookups && ApplyReap(st, ref).closers == st.closers
    ensures ApplyReap(st, ref).nextId == st.nextId
  {
  }

  lemma {:induction false} SpawnConsistent(st: State, ref: Ref)
    requires Consistent(st)
    ensures Consistent(ApplySpawn(st, ref)) && Evolves(st, ApplySpawn(st, ref))
  {
    var st' := ApplySpawn(st, ref);
    if st' != st {
      assert SessionOk(st, ref);
      UpdateConsistent(st, st', ref, st.sessions[ref].(reaper := Waiting));
    }
  }

  lemma {:induction false} StepConsistent(st: State, step: Step)
    requires Consistent(st)
    ensures Consistent(Apply(st, step)) && Evolves(st, Apply(st, step))
  {
    match step
    case Open(ref, proot) => OpenConsistent(st, ref, proot);
    case Insert(ref) => InsertConsistent(st, ref);
    case SpawnReaper(ref) => SpawnConsistent(st, ref);
    case LookupGet(id, w) => SameConsistent(st, ApplyGet(st, id, w));
    case LookupCheck(w) => SameConsistent(st, ApplyCheck(st, w));
    case Write(ref) => SameConsistent(st, ApplyWrite(st, ref));
    case CloseRemove(id, t) => CloseConsistent(st, id, t);
    case Advance(t) => AdvanceConsistent(st, t);
    case Reap(ref) => ReapConsistent(st, ref);
  }

  /* ---------- what the log says ---------- */

  /** The id was handed out and no session under it is, or will be, in the registry. */
  ghost predicate Gone(st: State, id: SessionId) {
    id < st.nextId && forall r :: r in st.sessions && st.sessions[r].id == id ==> st.sessions[r].listing == Delisted
  }

  lemma {:induction false} GoneStays(st: State, st': State, id: SessionId)
    requires Evolves(st, st') && Gone(st, id)
    ensures Gone(st', id)
  {
    forall r | r in st'.sessions && st'.sessions[r].id == id
      ensures st'.sessions[r].listing == Delisted
    {
      assert r in st.sessions;
      assert Later(st.sessions[r], st'.sessions[r]);
    }
  }

  lemma {:induction false} GoneIsMissing(st: State, id: SessionId)
    requires Consistent(st) && Gone(st, id)
    ensures id !in st.registry
  {
    forall i | i in st.registry
      ensures i != id
    {
      assert EntryOk(st, i);
      assert SessionOk(st, st.registry[i]);
    }
  }

  /** Removing an id from the registry by its one entry makes it Gone. */
  lemma {:induction false} RemovedIsGone(st: State, id: SessionId, t: Thread)
    requires Consistent(st) && id in st.registry && t !in st.closers
    ensures Gone(ApplyClose(st, id, t), id)
  {
    assert EntryOk(st, id);
    assert SessionOk(st, st.registry[id]);
  }

  /** Every close that found its session: once per id, and the id is gone. */
  ghost predicate CloseLog(st: State) {
    forall id {:trigger CloseDecided(id, true)} ::
      && multiset(st.log)[CloseDecided(id, true)] <= 1
      && (CloseDecided(id, true) in st.log ==> Gone(st, id))
  }

  lemma {:induction false} StepCloseLog(st: State, step: Step)
    requires Consistent(st) && CloseLog(st)
    ensures CloseLog(Apply(st, step))
  {
    var st' := Apply(st, step);
    StepConsistent(st, step);
    forall id
      ensures multiset(st'.log)[CloseDecided(id, true)] <= 1 && (CloseDecided(id, true) in st'.log ==> Gone(st', id))
    {
      CloseOnce(st, step, id);
    }
  }

  lemma {:induction false} CloseOnce(st: State, step: Step, id: SessionId)
    requires Consistent(st) && Evolves(st, Apply(st, step)) && multiset(st.log)[CloseDecided(id, true)] <= 1
    requires CloseDecided(id, true) in st.log ==> Gone(st, id)
    ensures multiset(Apply(st, step).log)[CloseDecided(id, true)] <= 1
    ensures CloseDecided(id, true) in Apply(st, step).log ==> Gone(Apply(st, step), id)
  {
    var st' := Apply(st, step);
    LogGrows(st, step);
    if CloseDecided(id, true) in st.log {
      GoneStays(st, st', id);
      GoneIsMissing(st, id);
    } else if st'.log != st.log && st'.log[|st.log|] == CloseDecided(id, true) {
      RemovedIsGone(st, id, step.t);
    }
  }

  /** A step writes at most one event, and which one says what it did. */
  lemma {:induction false} LogGrows(st: State, step: Step)
    ensures
      var st' := Apply(st, step);
      st'.log == st.log || (exists e {:trigger [e]} :: st'.log == st.log + [e] && Explains(st, step, e))
  {
    match step
    case Advance(t) => AdvanceLogs(st, t);
    case Reap(ref) => ReapLogs(st, ref);
    case _ => QuietLogs(st, step);
  }

  lemma {:induction false} AdvanceLogs(st: State, t: Thread)
    ensures
      var st' := ApplyAdvance(st, t);
      st'.log == st.log || (exists e {:trigger [e]} :: st'.log == st.log + [e] && Explains(st, Advance(t), e))
  {
    var st' := ApplyAdvance(st, t);
    if st'.log != st.log {
      var e := Signalled(st.closers[t].ref);
      assert st'.log == st.log + [e] && Explains(st, Advance(t), e);
    }
  }

  lemma {:induction false} ReapLogs(st: State, ref: Ref)
    ensures
      var st' := ApplyReap(st, ref);
      st'.log == st.log || (exists e {:trigger [e]} :: st'.log == st.log + [e] && Explains(st, Reap(ref), e))
  {
    var st' := ApplyReap(st, ref);
    if st'.log != st.log {
      var e := Exited(st.sessions[ref].id, ref);
      assert st'.log == st.log + [e] && Explains(st, Reap(ref), e);
    }
  }

  lemma {:induction false} QuietLogs(st: State, step: Step)
    requires !step.Advance? && !step.Reap?
    ensures
      var st' := Apply(st, step);
      st'.log == st.log || (exists e {:trigger [e]} :: st'.log == st.log + [e] && Explains(st, step, e))
  {
    match step
    case LookupGet(id, w) => GetLogs(st, id, w);
    case LookupCheck(w) => CheckLogs(st, w);
    case CloseRemove(id, t) => CloseLogs(st, id, t);
    case Write(ref) => if Apply(st, step).log != st.log { assert Explains(st, step, Wrote(ref)); }
    case _ =>
  }

  lemma {:induction false} GetLogs(st: State, id: SessionId, w: Thread)
    ensures
      var st' := ApplyGet(st, id, w);
      st'.log == st.log || (exists e {:trigger [e]} :: st'.log == st.log + [e] && Explains(st, LookupGet(id, w), e))
  {
    var st' := ApplyGet(st, id, w);
    if st'.log != st.log {
      var e := if id in st.registry then Got(id) else LookedUp(id, false);
      assert st'.log == st.log + [e] && Explains(st, LookupGet(id, w), e);
    }
  }

  lemma {:induction false} CheckLogs(st: State, w: Thread)
    ensures
      var st' := ApplyCheck(st, w);
      st'.log == st.log || (exists e {:trigger [e]} :: st'.log == st.log + [e] && Explains(st, LookupCheck(w), e))
  {
    var st' := ApplyCheck(st, w);
    if st'.log != st.log {
      var e := LookedUp(st.lookups[w].id, !ClosedSession(st, st.lookups[w].ref));
      assert st'.log == st.log + [e] && Explains(st, LookupCheck(w), e);
    }
  }

  lemma {:induction false} CloseLogs(st: State, id: SessionId, t: Thread)
    ensures
      var st' := ApplyClose(st, id, t);
      st'.log == st.log || (exists e {:trigger [e]} :: st'.log == st.log + [e] && Explains(st, CloseRemove(id, t), e))
  {
    var st' := ApplyClose(st, id, t);
    if st'.log != st.log {
      var e := CloseDecided(id, id in st.registry);
      assert st'.log == st.log + [e] && Explains(st, CloseRemove(id, t), e);
    }
  }

  predicate Explains(st: State, step: Step, e: Event) {
    match e
    case CloseDecided(id, found) => step.CloseRemove? && step.id == id && step.t !in st.closers && found == (id in st.registry)
    case Got(id) => step.LookupGet? && step.id == id && id in st.registry && step.w !in st.lookups
    case LookedUp(id, ok) =>
      || (step.LookupGet? && step.id == id && id !in st.registry && !ok)
      || (step.LookupCheck? && step.w in st.lookups && st.lookups[step.w].id == id
          && ok == !ClosedSession(st, st.lookups[step.w].ref))
    case Signalled(ref) =>
      step.Advance? && step.t in st.closers && st.closers[step.t] == Closer(ref, AtKill) && ref in st.sessions
      && !st.sessions[ref].child
    case Wrote(ref) => step == Write(ref) && ref in st.sessions && st.sessions[ref].writer
    case Exited(id, ref) =>
      step == Reap(ref) && ref in st.sessions && st.sessions[ref].id == id && st.sessions[ref].reaper == Forgotten
  }

  /* ---------- the termination signals ---------- */

  predicate Killer(st: State, t: Thread, ref: Ref) {
    t in st.closers && st.closers[t] == Closer(ref, AtKill)
  }

  /** One thread at most is about to signal a session, and only if nobody has. */
  ghost predicate KillerLog(st: State) {
    && (forall t, ref {:trigger Killer(st, t, ref)} ::
          Killer(st, t, ref) ==> ClosedSession(st, ref) && Signalled(ref) !in st.log)
    && (forall t, u, ref {:trigger Killer(st, t, ref), Killer(st, u, ref)} ::
          Killer(st, t, ref) && Killer(st, u, ref) ==> t == u)
  }

  ghost predicate SignalLog(st: State) {
    forall ref {:trigger Signalled(ref)} ::
      multiset(st.log)[Signalled(ref)] <= 1 && (Signalled(ref) in st.log ==> ClosedSession(st, ref))
  }

  /** A thread comes to stand before the kill only by being the one that set `closed`. */
  lemma {:induction false} KillerStep(st: State, step: Step, t: Thread, ref: Ref)
    requires Consistent(st) && Killer(Apply(st, step), t, ref)
    ensures
      || (Killer(st, t, ref) && step != Advance(t))
      || (step == Advance(t) && !ClosedSession(st, ref) && ClosedSession(Apply(st, step), ref))
  {
    assert t in st.closers ==> CloserOk(st, t);
  }

  lemma {:induction false} NewSignal(st: State, step: Step, ref: Ref)
    ensures Signalled(ref) in Apply(st, step).log && Signalled(ref) !in st.log ==> step.Advance? && Killer(st, step.t, ref)
  {
    LogGrows(st, step);
  }

  lemma {:induction false} StepKillerLog(st: State, step: Step)
    requires Consistent(st) && KillerLog(st) && SignalLog(st)
    ensures KillerLog(Apply(st, step))
  {
    var st' := Apply(st, step);
    StepConsistent(st, step);
    forall t, ref | Killer(st', t, ref)
      ensures ClosedSession(st', ref) && Signalled(ref) !in st'.log
    {
      KillerStep(st, step, t, ref);
      assert Killer(st, t, ref) ==> ClosedSession(st, ref);
      NewSignal(st, step, ref);
    }
    forall t, u, ref | Killer(st', t, ref) && Killer(st', u, ref)
      ensures t == u
    {
      KillerStep(st, step, t, ref);
      KillerStep(st, step, u, ref);
    }
  }

  lemma {:induction false} StepSignalLog(st: State, step: Step)
    requires Consistent(st) && KillerLog(st) && SignalLog(st)
    ensures SignalLog(Apply(st, step))
  {
    var st' := Apply(st, step);
    StepConsistent(st, step);
    LogGrows(st, step);
    forall ref
      ensures multiset(st'.log)[Signalled(ref)] <= 1 && (Signalled(ref) in st'.log ==> ClosedSession(st', ref))
    {
      if st'.log != st.log && st'.log[|st.log|] == Signalled(ref) {
        assert Killer(st, step.t, ref);
      }
      assert Signalled(ref) in st.log ==> ClosedSession(st, ref);
    }
  }

  /* ---------- who gets signalled ---------- */

  predicate Untaken(st: State, ref: Ref) {
    ref in st.sessions && st.sessions[ref].child == st.sessions[ref].proot
  }

  /** The PRoot child is taken only by the one thread that would otherwise signal. */
  ghost predicate ChildLog(st: State) {
    && (forall ref {:trigger Untaken(st, ref)} :: ref in st.sessions && !st.sessions[ref].closed ==> Untaken(st, ref))
    && (forall t, ref {:trigger Killer(st, t, ref)} :: Killer(st, t, ref) ==> Untaken(st, ref))
    && (forall ref {:trigger Signalled(ref)} ::
          Signalled(ref) in st.log ==> ref in st.sessions && !st.sessions[ref].proot)
  }

  lemma {:induction false} UntakenStep(st: State, step: Step, ref: Ref)
    requires Consistent(st) && ref in Apply(st, step).sessions && !Untaken(Apply(st, step), ref)
    ensures ref in st.sessions && (!Untaken(st, ref) || (step.Advance? && Killer(st, step.t, ref)))
  {
    match step
    case Reap(r) => ReapKeepsChild(st, r, ref);
    case Open(r, proot) =>
    case Insert(r) =>
    case SpawnReaper(r) =>
    case LookupGet(id, w) =>
    case LookupCheck(w) =>
    case Write(r) =>
    case CloseRemove(id, t) =>
    case Advance(t) => AdvanceTakesChild(st, t, ref);
  }

  lemma {:induction false} AdvanceTakesChild(st: State, t: Thread, ref: Ref)
    requires ref in ApplyAdvance(st, t).sessions
    ensures ref in st.sessions && ApplyAdvance(st, t).sessions[ref].proot == st.sessions[ref].proot
    ensures ApplyAdvance(st, t).sessions[ref].child == st.sessions[ref].child || Killer(st, t, ref)
  {
  }

  lemma {:induction false} ReapKeepsChild(st: State, r: Ref, ref: Ref)
    requires ref in ApplyReap(st, r).sessions
    ensures ref in st.sessions && ApplyReap(st, r).sessions[ref].child == st.sessions[ref].child
    ensures ApplyReap(st, r).sessions[ref].proot == st.sessions[ref].proot
  {
    if r in st.sessions {
      match st.sessions[r].reaper
      case NoReaper =>
      case Waiting =>
      case Reaped =>
      case Marked =>
      case Silenced =>
      case Forgotten =>
      case Reported =>
    }
  }

  lemma {:induction false} StepChildLog(st: State, step: Step)
    requires Consistent(st) && KillerLog(st) && ChildLog(st)
    ensures ChildLog(Apply(st, step))
  {
    var st' := Apply(st, step);
    StepConsistent(st, step);
    LogGrows(st, step);
    forall ref | ref in st'.sessions && !st'.sessions[ref].closed
      ensures Untaken(st', ref)
    {
      assert ref in st.sessions ==> Later(st.sessions[ref], st'.sessions[ref]);
      if !Untaken(st', ref) {
        UntakenStep(st, step, ref);
      }
    }
    forall t, ref | Killer(st', t, ref)
      ensures Untaken(st', ref)
    {
      KillerStep(st, step, t, ref);
      assert ref in st'.sessions;
      if !Untaken(st', ref) {
        UntakenStep(st, step, ref);
      }
    }
    forall ref | Signalled(ref) in st'.log
      ensures ref in st'.sessions && !st'.sessions[ref].proot
    {
      if Signalled(ref) !in st.log {
        assert Explains(st, step, Signalled(ref));
        assert Killer(st, step.t, ref);
      }
    }
  }

  predicate Asked(st: State, ref: Ref) {
    ref in st.sessions && CloseDecided(st.sessions[ref].id, true) in st.log
  }

  /** Every thread inside Session::close got there through a close that found its id. */
  ghost predicate CloserLog(st: State) {
    && (forall t {:trigger st.closers[t]} :: t in st.closers ==> Asked(st, st.closers[t].ref))
    && (forall ref {:trigger Signalled(ref)} :: Signalled(ref) in st.log ==> Asked(st, ref))
  }

  lemma {:induction false} NewCloser(st: State, step: Step, t: Thread)
    requires Consistent(st) && t in Apply(st, step).closers
    ensures
      var st' := Apply(st, step);
      || (t in st.closers && st.closers[t].ref == st'.closers[t].ref)
      || Asked(st', st'.closers[t].ref)
  {
    match step
    case CloseRemove(id, u) => if id in st.registry { assert EntryOk(st, id); }
    case Advance(u) => if u in st.closers && st.closers[u].ref in st.sessions { AdvanceShape(st, u); }
    case Reap(ref) => ReapKeeps(st, ref);
    case _ =>
  }

  lemma {:induction false} StepCloserLog(st: State, step: Step)
    requires Consistent(st) && CloserLog(st)
    ensures CloserLog(Apply(st, step))
  {
    var st' := Apply(st, step);
    StepConsistent(st, step);
    LogGrows(st, step);
    forall ref | Asked(st, ref)
      ensures Asked(st', ref)
    {
      assert Later(st.sessions[ref], st'.sessions[ref]);
    }
    forall t | t in st'.closers
      ensures Asked(st', st'.closers[t].ref)
    {
      NewCloser(st, step, t);
    }
    forall ref | Signalled(ref) in st'.log
      ensures Asked(st', ref)
    {
      if Signalled(ref) !in st.log {
        assert Explains(st, step, Signalled(ref));
        assert st.closers[step.t].ref == ref;
      }
    }
  }

  /* ---------- the exit report ---------- */

  /** What holds of a session once its exit has been reported. */
  ghost predicate Finished(st: State, id: SessionId, ref: Ref) {
    && ref in st.sessions && st.sessions[ref].id == id && st.sessions[ref].reaper == Reported
    && st.sessions[ref].closed && !st.sessions[ref].writer && id !in st.registry && Gone(st, id)
  }

  ghost predicate ExitLog(st: State) {
    forall id, ref {:trigger Exited(id, ref)} ::
      multiset(st.log)[Exited(id, ref)] <= 1 && (Exited(id, ref) in st.log ==> ReportedAs(st, id, ref))
  }

  ghost predicate WriteLog(log: seq<Event>) {
    forall i, j {:trigger log[i], log[j]} ::
      0 <= i < j < |log| && log[i].Exited? ==> log[j] != Wrote(log[i].ref)
  }

  predicate ReportedAs(st: State, id: SessionId, ref: Ref) {
    ref in st.sessions && st.sessions[ref].id == id && st.sessions[ref].reaper == Reported
  }

  lemma {:induction false} ReportedIsFinished(st: State, id: SessionId, ref: Ref)
    requires Consistent(st) && ReportedAs(st, id, ref)
    ensures Finished(st, id, ref)
  {
    assert SessionOk(st, ref);
    GoneIsMissing(st, id);
  }

  lemma {:induction false} StepExitLog(st: State, step: Step)
    requires Consistent(st) && ExitLog(st)
    ensures ExitLog(Apply(st, step))
  {
    var st' := Apply(st, step);
    StepConsistent(st, step);
    forall id, ref
      ensures multiset(st'.log)[Exited(id, ref)] <= 1 && (Exited(id, ref) in st'.log ==> ReportedAs(st', id, ref))
    {
      ExitOnce(st, step, id, ref);
    }
  }

  lemma {:induction false} ExitOnce(st: State, step: Step, id: SessionId, ref: Ref)
    requires Evolves(st, Apply(st, step)) && multiset(st.log)[Exited(id, ref)] <= 1
    requires Exited(id, ref) in st.log ==> ReportedAs(st, id, ref)
    ensures multiset(Apply(st, step).log)[Exited(id, ref)] <= 1
    ensures Exited(id, ref) in Apply(st, step).log ==> ReportedAs(Apply(st, step), id, ref)
  {
    var st' := Apply(st, step);
    assert ref in st.sessions ==> Later(st.sessions[ref], st'.sessions[ref]);
    LogGrows(st, step);
    if st'.log != st.log && st'.log[|st.log|] == Exited(id, ref) {
      ReportStep(st, step, id, ref);
    }
  }

  lemma {:induction false} ReportStep(st: State, step: Step, id: SessionId, ref: Ref)
    requires Explains(st, step, Exited(id, ref))
    ensures ReportedAs(Apply(st, step), id, ref) && !ReportedAs(st, id, ref)
  {
  }

  lemma {:induction false} StepWriteLog(st: State, step: Step)
    requires Consistent(st) && ExitLog(st) && WriteLog(st.log)
    ensures WriteLog(Apply(st, step).log)
  {
    var st' := Apply(st, step);
    LogGrows(st, step);
    forall i, j | 0 <= i < j < |st'.log| && st'.log[i].Exited?
      ensures st'.log[j] != Wrote(st'.log[i].ref)
    {
      var e := st'.log[i];
      assert e == st.log[i] && e == Exited(e.id, e.ref);
      ReportedIsFinished(st, e.id, e.ref);
    }
  }

  /* ---------- lookups under way ---------- */

  predicate LookupOk(st: State, w: Thread)
    requires w in st.lookups
  {
    st.lookups[w].ref in st.sessions && st.sessions[st.lookups[w].ref].id == st.lookups[w].id
  }

  ghost predicate Looking(st: State) {
    forall w {:trigger LookupOk(st, w)} :: w in st.lookups ==> LookupOk(st, w)
  }

  /** A lookup under way is an old one, or has just found its id in the registry. */
  lemma {:induction false} LookupStep(st: State, step: Step, w: Thread)
    requires w in Apply(st, step).lookups
    ensures
      || (w in st.lookups && st.lookups[w] == Apply(st, step).lookups[w])
      || (step.LookupGet? && step.w == w && step.id in st.registry
          && Apply(st, step).lookups[w] == Lookup(step.id, st.registry[step.id]))
  {
    match step
    case LookupGet(id, v) =>
    case LookupCheck(v) =>
    case Advance(t) => AdvanceKeepsLookups(st, t);
    case Reap(ref) => ReapKeeps(st, ref);
    case _ =>
  }

  lemma {:induction false} AdvanceKeepsLookups(st: State, t: Thread)
    ensures ApplyAdvance(st, t).lookups == st.lookups
  {
  }

  lemma {:induction false} StepLooking(st: State, step: Step)
    requires Consistent(st) && Looking(st)
    ensures Looking(Apply(st, step))
  {
    var st' := Apply(st, step);
    StepConsistent(st, step);
    forall w | w in st'.lookups
      ensures LookupOk(st', w)
    {
      LookupStep(st, step, w);
      if w in st.lookups && st.lookups[w] == st'.lookups[w] {
        assert LookupOk(st, w);
        assert Later(st.sessions[st.lookups[w].ref], st'.sessions[st.lookups[w].ref]);
      } else {
        assert EntryOk(st, step.id);
        assert Later(st.sessions[st.registry[step.id]], st'.sessions[st.registry[step.id]]);
      }
    }
  }

  /* ---------- every run ---------- */

  ghost predicate Safe(st: State) {
    Consistent(st) && CloseLog(st) && KillerLog(st) && SignalLog(st) && ChildLog(st) && CloserLog(st) && ExitLog(st)
    && WriteLog(st.log) && Looking(st)
  }

  lemma {:induction false} StepSafe(st: State, step: Step)
    requires Safe(st)
    ensures Safe(Apply(st, step))
  {
    StepConsistent(st, step);
    StepCloseLog(st, step);
    StepKillerLog(st, step);
    StepSignalLog(st, step);
    StepChildLog(st, step);
    StepCloserLog(st, step);
    StepExitLog(st, step);
    StepWriteLog(st, step);
    StepLooking(st, step);
  }

  lemma {:induction false} RunSafe(steps: seq<Step>)
    ensures Safe(Exec(steps))
    decreases |steps|
  {
    if steps != [] {
      RunSafe(steps[..|steps| - 1]);
      StepSafe(Exec(steps[..|steps| - 1]), steps[|steps| - 1]);
    }
  }

  /** A later state of the same run. */
  lemma {:induction false} RunContinues(steps: seq<Step>, more: seq<Step>)
    ensures Exec(steps + more) == ExecFrom(Exec(steps), more)
    decreases |more|
  {
    if more == [] {
      assert steps + more == steps;
    } else {
      RunContinues(steps, more[..|more| - 1]);
      assert (steps + more)[..|steps + more| - 1] == steps + more[..|more| - 1];
    }
  }

  predicate NeverFound(log: seq<Event>, from: nat, id: SessionId) {
    forall i {:trigger log[i]} :: from <= i < |log| ==> log[i] != Got(id) && log[i] != CloseDecided(id, true)
  }

  lemma {:induction false} GoneStep(st: State, step: Step, id: SessionId)
    requires Consistent(st) && Gone(st, id)
    ensures Gone(Apply(st, step), id) && id !in Apply(st, step).registry
    ensures var log := Apply(st, step).log; |st.log| <= |log| && log[..|st.log|] == st.log && NeverFound(log, |st.log|, id)
  {
    StepConsistent(st, step);
    LogGrows(st, step);
    GoneIsMissing(st, id);
    GoneStays(st, Apply(st, step), id);
    GoneIsMissing(Apply(st, step), id);
  }

  lemma {:induction false} EvolvesOn(st: State, st1: State, st2: State)
    requires Evolves(st, st1) && Evolves(st1, st2)
    ensures Evolves(st, st2)
  {
  }

  lemma {:induction false} GoneForever(st: State, more: seq<Step>, id: SessionId)
    requires Safe(st) && Gone(st, id)
    ensures
      var st' := ExecFrom(st, more);
      Safe(st') && Evolves(st, st') && Gone(st', id) && id !in st'.registry && |st.log| <= |st'.log|
      && NeverFound(st'.log, |st.log|, id)
    decreases |more|
  {
    if more == [] {
      GoneIsMissing(st, id);
    } else {
      var front, last := more[..|more| - 1], more[|more| - 1];
      var st1 := ExecFrom(st, front);
      var st2 := ExecFrom(st, more);
      assert st2 == Apply(st1, last);
      GoneForever(st, front, id);
      StepSafe(st1, last);
      StepConsistent(st1, last);
      EvolvesOn(st, st1, st2);
      GoneStep(st1, last, id);
      forall i | |st.log| <= i < |st2.log|
        ensures st2.log[i] != Got(id) && st2.log[i] != CloseDecided(id, true)
      {
        assert i < |st1.log| ==> st2.log[i] == st1.log[i];
      }
    }
  }

  /* ---------- lookups that outlive the registration ---------- */

  predicate LateOkAt(st: State, more: seq<Step>, k: nat, id: SessionId)
    requires k < |more|
  {
    LateOk(st, ExecFrom(st, more[..k]), more[k], id)
  }

  predicate AnswersOk(log: seq<Event>, from: nat, id: SessionId) {
    exists i :: from <= i < |log| && log[i] == LookedUp(id, true)
  }

  /**
    Step `step`, taken in `now`, ends a call of get_open_session that already
    held the session in `atRemoval`, and `closed` is still unset when it is loaded.
   */
  predicate LateOk(atRemoval: State, now: State, step: Step, id: SessionId) {
    && step.LookupCheck? && step.w in atRemoval.lookups && atRemoval.lookups[step.w].id == id
    && step.w in now.lookups && now.lookups[step.w] == atRemoval.lookups[step.w]
    && !ClosedSession(now, atRemoval.lookups[step.w].ref)
  }

  /** Whoever is still looking an id up after it is gone had got it before. */
  lemma {:induction false} OnlyOldLookups(st: State, more: seq<Step>, id: SessionId, w: Thread)
    requires Safe(st) && Gone(st, id)
    requires w in ExecFrom(st, more).lookups && ExecFrom(st, more).lookups[w].id == id
    ensures w in st.lookups && st.lookups[w] == ExecFrom(st, more).lookups[w]
    decreases |more|
  {
    if more != [] {
      var front, last := more[..|more| - 1], more[|more| - 1];
      GoneForever(st, front, id);
      LookupStep(ExecFrom(st, front), last, w);
      OnlyOldLookups(st, front, id, w);
    }
  }

  lemma {:induction false} OkStep(st: State, more: seq<Step>, step: Step, id: SessionId)
    requires Safe(st) && Gone(st, id)
    ensures
      var now := ExecFrom(st, more);
      && |st.log| <= |now.log|
      && (AnswersOk(Apply(now, step).log, |st.log|, id) <==> AnswersOk(now.log, |st.log|, id) || LateOk(st, now, step, id))
  {
    var now := ExecFrom(st, more);
    GoneForever(st, more, id);
    if step.LookupCheck? && step.w in now.lookups && now.lookups[step.w].id == id {
      OnlyOldLookups(st, more, id, step.w);
    }
    AnswersStep(now, step, |st.log|, id);
  }

  lemma {:induction false} AnswersAppend(log: seq<Event>, e: Event, from: nat, id: SessionId)
    requires from <= |log|
    ensures AnswersOk(log + [e], from, id) <==> AnswersOk(log, from, id) || e == LookedUp(id, true)
  {
    if i :| from <= i < |log| && log[i] == LookedUp(id, true) {
      assert (log + [e])[i] == LookedUp(id, true);
    }
    assert (log + [e])[|log|] == e;
    if AnswersOk(log + [e], from, id) && e != LookedUp(id, true) {
      var i :| from <= i < |log + [e]| && (log + [e])[i] == LookedUp(id, true);
      assert log[i] == LookedUp(id, true);
    }
  }

  lemma {:induction false} AnswersStep(st: State, step: Step, from: nat, id: SessionId)
    requires from <= |st.log|
    ensures AnswersOk(Apply(st, step).log, from, id) <==>
              || AnswersOk(st.log, from, id)
              || (step.LookupCheck? && step.w in st.lookups && st.lookups[step.w].id == id
                  && !ClosedSession(st, st.lookups[step.w].ref))
  {
    LogGrows(st, step);
    if Apply(st, step).log != st.log {
      var e :| Apply(st, step).log == st.log + [e] && Explains(st, step, e);
      AnswersAppend(st.log, e, from, id);
    }
  }

  /**
    After an id is gone, get_open_session still answers Ok for it exactly in
    the calls whose registry get came before the removal and whose load of
    `closed` comes before anybody sets it.
   */
  lemma {:induction false} LateOkIff(st: State, more: seq<Step>, id: SessionId)
    requires Safe(st) && Gone(st, id)
    ensures AnswersOk(ExecFrom(st, more).log, |st.log|, id) <==>
              exists k :: 0 <= k < |more| && LateOkAt(st, more, k, id)
    decreases |more|
  {
    if more != [] {
      var n := |more| - 1;
      var front := more[..n];
      LateOkIff(st, front, id);
      OkStep(st, front, more[n], id);
      assert LateOkAt(st, more, n, id) <==> LateOk(st, ExecFrom(st, front), more[n], id);
      forall k | 0 <= k < n
        ensures LateOkAt(st, front, k, id) <==> LateOkAt(st, more, k, id)
      {
        assert front[..k] == more[..k] && front[k] == more[k];
      }
    }
  }

  /** None once the session is closed. */
  lemma {:induction false} NoLateOk(st: State, more: seq<Step>, id: SessionId, ref: Ref)
    requires Safe(st) && Gone(st, id) && ClosedSession(st, ref) && st.sessions[ref].id == id
    ensures !AnswersOk(ExecFrom(st, more).log, |st.log|, id)
  {
    LateOkIff(st, more, id);
    forall k | 0 <= k < |more|
      ensures !LateOkAt(st, more, k, id)
    {
      var now := ExecFrom(st, more[..k]);
      GoneForever(st, more[..k], id);
      assert Later(st.sessions[ref], now.sessions[ref]);
      if more[k].LookupCheck? && more[k].w in st.lookups && st.lookups[more[k].w].id == id {
        assert LookupOk(st, more[k].w);
      }
    }
  }

  lemma {:induction false} ExecAppend(steps: seq<Step>, step: Step)
    ensures Exec(steps + [step]) == Apply(Exec(steps), step)
  {
    assert (steps + [step])[..|steps + [step]| - 1] == steps;
  }

  /** It happens: get, a close that answers true, then the load. */
  lemma {:induction false} LateOkRun()
    ensures Exec([Open(0, false)] + [Insert(0)] + [LookupGet(1, 0)] + [CloseRemove(1, 1)] + [LookupCheck(0)]).log
         == [Got(1), CloseDecided(1, true), LookedUp(1, true)]
  {
    var a, b, c, d, e := [Open(0, false)], [Insert(0)], [LookupGet(1, 0)], [CloseRemove(1, 1)], LookupCheck(0);
    assert Exec([]) == INITIAL && [] + a == a;
    ExecAppend([], a[0]);
    ExecAppend(a, b[0]);
    ExecAppend(a + b, c[0]);
    ExecAppend(a + b + c, d[0]);
    ExecAppend(a + b + c + d, e);
    GetCloseLoad();
  }

  lemma {:induction false} GetCloseLoad()
    ensures
      var st := Apply(Apply(INITIAL, Open(0, false)), Insert(0));
      Apply(Apply(Apply(st, LookupGet(1, 0)), CloseRemove(1, 1)), LookupCheck(0)).log
      == [Got(1), CloseDecided(1, true), LookedUp(1, true)]
  {
    var st := Apply(Apply(INITIAL, Open(0, false)), Insert(0));
    assert st.registry == map[1 := 0] && !st.sessions[0].closed && st.log == [];
    var st1 := Apply(st, LookupGet(1, 0));
    assert st1.lookups == map[0 := Lookup(1, 0)] && st1.log == [Got(1)];
    var st2 := Apply(st1, CloseRemove(1, 1));
    assert st2.log == [Got(1), CloseDecided(1, true)] && !st2.sessions[0].closed;
  }

  /* ---------- main results ---------- */

  /** Two sessions of a run never have the same id, whether or not they are still registered. */
  lemma {:induction false} IdsNeverReused(steps: seq<Step>, r: Ref, q: Ref)
    requires r in Exec(steps).sessions && q in Exec(steps).sessions && r != q
    ensures Exec(steps).sessions[r].id != Exec(steps).sessions[q].id
  {
    RunSafe(steps);
  }

  /** `close(id)` answers true at most once in a run, and no lookup or close finds the id in the registry afterwards. */
  lemma {:induction false} CloseTrueOnce(steps: seq<Step>, more: seq<Step>, id: SessionId)
    ensures multiset(Exec(steps).log)[CloseDecided(id, true)] <= 1
    ensures CloseDecided(id, true) in Exec(steps).log ==>
              && id !in Exec(steps + more).registry && NeverFound(Exec(steps + more).log, |Exec(steps).log|, id)
              && (AnswersOk(Exec(steps + more).log, |Exec(steps).log|, id) <==>
                  exists k :: 0 <= k < |more| && LateOkAt(Exec(steps), more, k, id))
  {
    RunSafe(steps);
    RunContinues(steps, more);
    assert multiset(Exec(steps).log)[CloseDecided(id, true)] <= 1;
    if CloseDecided(id, true) in Exec(steps).log {
      GoneForever(Exec(steps), more, id);
      LateOkIff(Exec(steps), more, id);
    }
  }

  /**
    The hangup/terminate pair goes out at most once per session, only to a
    session that owns its process group, and only after a close found its id.
   */
  lemma {:induction false} SignalledOnce(steps: seq<Step>, ref: Ref)
    ensures multiset(Exec(steps).log)[Signalled(ref)] <= 1
    ensures Signalled(ref) in Exec(steps).log ==>
              ClosedSession(Exec(steps), ref) && !Exec(steps).sessions[ref].proot && Asked(Exec(steps), ref)
  {
    RunSafe(steps);
    assert multiset(Exec(steps).log)[Signalled(ref)] <= 1;
  }

  /**
    Once `on_exited` has fired, the session is closed, without a writer and
    unregistered for the rest of the run; it fires once, nothing is written
    afterwards, no lookup or close finds the id again and no call of
    get_open_session answers Ok for it, not even one under way.
   */
  lemma {:induction false} ExitIsFinal(steps: seq<Step>, more: seq<Step>, id: SessionId, ref: Ref)
    requires Exited(id, ref) in Exec(steps).log
    ensures Finished(Exec(steps), id, ref) && Finished(Exec(steps + more), id, ref)
    ensures multiset(Exec(steps + more).log)[Exited(id, ref)] <= 1
    ensures NeverFound(Exec(steps + more).log, |Exec(steps).log|, id)
    ensures !AnswersOk(Exec(steps + more).log, |Exec(steps).log|, id)
    ensures forall i, j :: 0 <= i < j < |Exec(steps + more).log| && Exec(steps + more).log[i] == Exited(id, ref)
                           ==> Exec(steps + more).log[j] != Wrote(ref)
  {
    RunSafe(steps);
    RunSafe(steps + more);
    RunContinues(steps, more);
    ReportedIsFinished(Exec(steps), id, ref);
    GoneForever(Exec(steps), more, id);
    NoLateOk(Exec(steps), more, id, ref);
    var st, st' := Exec(steps), Exec(steps + more);
    assert Later(st.sessions[ref], st'.sessions[ref]);
    ReportedIsFinished(st', id, ref);
  }
}
