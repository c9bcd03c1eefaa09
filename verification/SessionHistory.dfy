/**
  What the session registry holds after a run, read off the steps of its
  threads, and what a close and a reaper achieve once their steps are taken,
  whatever the other threads do in between.
 */
module SessionHistory {
  import opened Common
  import opened SessionRegistry

  /* ---------- views of a state ---------- */

  predicate HasId(st: State, ref: Ref, id: SessionId, proot: bool) {
    ref in st.sessions && st.sessions[ref].id == id && st.sessions[ref].proot == proot
  }

  predicate Registered(st: State, id: SessionId, ref: Ref) {
    id in st.registry && st.registry[id] == ref
  }

  predicate Waits(st: State, ref: Ref) {
    ref in st.sessions && st.sessions[ref].listing == Unlisted
  }

  predicate HasWriter(st: State, ref: Ref) {
    ref in st.sessions && st.sessions[ref].writer
  }

  predicate HasChild(st: State, ref: Ref) {
    ref in st.sessions && st.sessions[ref].child
  }

  function ReaperOf(st: State, ref: Ref): Reaper {
    if ref in st.sessions then st.sessions[ref].reaper else NoReaper
  }

  predicate CloserAt(st: State, t: Thread, ref: Ref, stage: Stage) {
    t in st.closers && st.closers[t] == Closer(ref, stage)
  }

  predicate LookingUp(st: State, w: Thread, id: SessionId, ref: Ref) {
    w in st.lookups && st.lookups[w] == Lookup(id, ref)
  }

  /* ---------- what changes a view ---------- */

  predicate Opens(st: State, step: Step, ref: Ref) {
    step.Open? && step.ref == ref && ref !in st.sessions
  }

  predicate Lists(st: State, step: Step, id: SessionId, ref: Ref) {
    step == Insert(ref) && Waits(st, ref) && st.sessions[ref].id == id
  }

  /** A close that finds the id. */
  predicate ClosesId(st: State, step: Step, id: SessionId) {
    step.CloseRemove? && step.id == id && step.t !in st.closers
  }

  predicate Advances(st: State, step: Step, ref: Ref, stage: Stage) {
    step.Advance? && CloserAt(st, step.t, ref, stage)
  }

  predicate Reaps(st: State, step: Step, ref: Ref, reaper: Reaper) {
    step == Reap(ref) && ref in st.sessions && st.sessions[ref].reaper == reaper
  }

  predicate Checks(st: State, step: Step, ref: Ref) {
    step.LookupCheck? && step.w in st.lookups && st.lookups[step.w].ref == ref && !ClosedSession(st, ref)
  }

  /** What one step adds to the log. */
  function Noted(st: State, step: Step): seq<Event> {
    match step
    case LookupGet(id, w) => if w in st.lookups then [] else if id in st.registry then [Got(id)] else [LookedUp(id, false)]
    case LookupCheck(w) => if w in st.lookups then [LookedUp(st.lookups[w].id, !ClosedSession(st, st.lookups[w].ref))] else []
    case Write(ref) => if ref in st.held && HasWriter(st, ref) then [Wrote(ref)] else []
    case CloseRemove(id, t) => if t in st.closers then [] else [CloseDecided(id, id in st.registry)]
    case Advance(t) =>
      if t in st.closers && CloserAt(st, t, st.closers[t].ref, AtKill) && !HasChild(st, st.closers[t].ref)
      then [Signalled(st.closers[t].ref)] else []
    case Reap(ref) => if Reaps(st, step, ref, Forgotten) then [Exited(st.sessions[ref].id, ref)] else []
    case _ => []
  }

  /* ---------- one step, seen from one session, one id and one thread ---------- */

  ghost predicate SessionLaws(st: State, step: Step, ref: Ref, id: SessionId) {
    var st' := Apply(st, step);
    && (ref in st'.sessions <==> ref in st.sessions || Opens(st, step, ref))
    && (ClosedSession(st', ref) <==> ClosedSession(st, ref) || Advances(st, step, ref, AtSwap) || Reaps(st, step, ref, Reaped))
    && (HasWriter(st', ref) <==>
          Opens(st, step, ref) || (HasWriter(st, ref) && !Advances(st, step, ref, AtWriter) && !Reaps(st, step, ref, Marked)))
    && (HasChild(st', ref) <==> (Opens(st, step, ref) && step.proot) || (HasChild(st, ref) && !Advances(st, step, ref, AtKill)))
    && (Waits(st', ref) <==> Opens(st, step, ref) || (Waits(st, ref) && step != Insert(ref)))
    && (Registered(st', id, ref) <==>
          Lists(st, step, id, ref) || (Registered(st, id, ref) && !ClosesId(st, step, id) && !Reaps(st, step, ref, Silenced)))
    && st'.log == st.log + Noted(st, step)
  }

  ghost predicate IdLaws(st: State, step: Step, ref: Ref, id: SessionId, proot: bool) {
    var st' := Apply(st, step);
    && (HasId(st', ref, id, proot) <==> HasId(st, ref, id, proot) || (step == Open(ref, proot) && ref !in st.sessions && st.nextId == id))
    && st'.nextId == st.nextId + (if step.Open? && step.ref !in st.sessions then 1 else 0)
    && Rank(ReaperOf(st', ref)) == NextRank(Rank(ReaperOf(st, ref)), st, step, ref)
  }

  /** A reaper is started once the session has been listed, unless it is a PRoot one, and then goes step by step. */
  function NextRank(rank: nat, st: State, step: Step, ref: Ref): nat {
    if step == SpawnReaper(ref) && rank == 0 && ref in st.sessions && !Waits(st, ref) && !st.sessions[ref].proot then 1
    else if step == Reap(ref) && 1 <= rank < 6 then rank + 1
    else rank
  }

  ghost predicate ThreadLaws(st: State, step: Step, t: Thread, ref: Ref, id: SessionId) {
    var st' := Apply(st, step);
    && (CloserAt(st', t, ref, AtSwap) <==>
          || (step.CloseRemove? && step.t == t && t !in st.closers && Registered(st, step.id, ref))
          || (CloserAt(st, t, ref, AtSwap) && step != Advance(t)))
    && (CloserAt(st', t, ref, AtKill) <==>
          || (step == Advance(t) && CloserAt(st, t, ref, AtSwap) && !ClosedSession(st, ref))
          || (CloserAt(st, t, ref, AtKill) && step != Advance(t)))
    && (CloserAt(st', t, ref, AtWriter) <==>
          || (step == Advance(t) && CloserAt(st, t, ref, AtKill))
          || (CloserAt(st, t, ref, AtWriter) && step != Advance(t)))
    && (LookingUp(st', t, id, ref) <==>
          || (step == LookupGet(id, t) && t !in st.lookups && Registered(st, id, ref))
          || (LookingUp(st, t, id, ref) && step != LookupCheck(t)))
    && (ref in st'.held <==> ref in st.held || Checks(st, step, ref))
  }

  lemma {:induction false} CloserKnown(st: State, t: Thread)
    requires Consistent(st)
    ensures t in st.closers ==> st.closers[t].ref in st.sessions
  {
    if t in st.closers {
      assert CloserOk(st, t);
    }
  }

  lemma {:induction false} EntryKnown(st: State, id: SessionId)
    requires Consistent(st)
    ensures id in st.registry ==> st.registry[id] in st.sessions && st.sessions[st.registry[id]].id == id
                                  && st.sessions[st.registry[id]].listing == Listed
  {
    if id in st.registry {
      assert EntryOk(st, id);
      assert SessionOk(st, st.registry[id]);
    }
  }

  /* ---------- steps on threads, lookups and the log leave the sessions alone ---------- */

  lemma {:induction false} LookupShape(st: State, step: Step)
    requires step.LookupGet? || step.LookupCheck? || step.Write?
    ensures var st' := Apply(st, step);
      && st'.sessions == st.sessions && st'.registry == st.registry && st'.nextId == st.nextId && st'.closers == st.closers
      && st'.log == st.log + Noted(st, step)
  {
  }

  lemma {:induction false} SessionShape(st: State, step: Step)
    requires Consistent(st) && !step.LookupGet? && !step.LookupCheck? && !step.Write?
    ensures Apply(st, step).lookups == st.lookups && Apply(st, step).held == st.held
  {
    match step
    case Advance(t) => AdvanceLookups(st, t);
    case Reap(r) => ReapLookups(st, r);
    case _ =>
  }

  lemma {:induction false} AdvanceLookups(st: State, t: Thread)
    ensures ApplyAdvance(st, t).lookups == st.lookups && ApplyAdvance(st, t).held == st.held
  {
  }

  lemma {:induction false} ReapLookups(st: State, r: Ref)
    ensures ApplyReap(st, r).lookups == st.lookups && ApplyReap(st, r).held == st.held
  {
  }

  lemma {:induction false} UntouchedSession(st: State, step: Step, ref: Ref, id: SessionId)
    requires step.LookupGet? || step.LookupCheck? || step.Write?
    ensures SessionLaws(st, step, ref, id)
  {
    LookupShape(st, step);
  }

  lemma {:induction false} OpenSession(st: State, r: Ref, proot: bool, ref: Ref, id: SessionId)
    ensures SessionLaws(st, Open(r, proot), ref, id)
  {
    assert Noted(st, Open(r, proot)) == [];
  }

  lemma {:induction false} SpawnSession(st: State, r: Ref, ref: Ref, id: SessionId)
    ensures SessionLaws(st, SpawnReaper(r), ref, id)
  {
    assert Noted(st, SpawnReaper(r)) == [];
  }

  lemma {:induction false} InsertSession(st: State, r: Ref, ref: Ref, id: SessionId)
    requires Consistent(st)
    ensures SessionLaws(st, Insert(r), ref, id)
  {
    EntryKnown(st, id);
    assert Noted(st, Insert(r)) == [];
  }

  lemma {:induction false} CloseSession(st: State, i: SessionId, t: Thread, ref: Ref, id: SessionId)
    requires Consistent(st)
    ensures SessionLaws(st, CloseRemove(i, t), ref, id)
  {
    EntryKnown(st, i);
  }

  lemma {:induction false} AdvanceLog(st: State, t: Thread)
    requires Consistent(st)
    ensures ApplyAdvance(st, t).log == st.log + Noted(st, Advance(t))
  {
    CloserKnown(st, t);
  }

  lemma {:induction false} AdvanceSession(st: State, t: Thread, ref: Ref, id: SessionId)
    requires Consistent(st)
    ensures SessionLaws(st, Advance(t), ref, id)
  {
    CloserKnown(st, t);
    AdvanceLog(st, t);
    if t in st.closers {
      AdvanceShape(st, t);
    }
  }

  lemma {:induction false} ReapLog(st: State, r: Ref)
    ensures ApplyReap(st, r).log == st.log + Noted(st, Reap(r))
  {
  }

  lemma {:induction false} ReapSession(st: State, r: Ref, ref: Ref, id: SessionId)
    requires Consistent(st)
    ensures SessionLaws(st, Reap(r), ref, id)
  {
    EntryKnown(st, id);
    ReapLog(st, r);
    if r in st.sessions {
      assert SessionOk(st, r);
      ReapShape(st, r);
    }
  }

  lemma {:induction false} StepSession(st: State, step: Step, ref: Ref, id: SessionId)
    requires Consistent(st)
    ensures SessionLaws(st, step, ref, id)
  {
    match step
    case Open(r, proot) => OpenSession(st, r, proot, ref, id);
    case Insert(r) => InsertSession(st, r, ref, id);
    case SpawnReaper(r) => SpawnSession(st, r, ref, id);
    case CloseRemove(i, t) => CloseSession(st, i, t, ref, id);
    case Advance(t) => AdvanceSession(st, t, ref, id);
    case Reap(r) => ReapSession(st, r, ref, id);
    case _ => UntouchedSession(st, step, ref, id);
  }

  /* ---------- ids and reapers ---------- */

  lemma {:induction false} RequestIds(st: State, step: Step, ref: Ref, id: SessionId, proot: bool)
    requires Consistent(st) && (step.Insert? || step.CloseRemove? || step.LookupGet? || step.LookupCheck? || step.Write?)
    ensures IdLaws(st, step, ref, id, proot)
  {
    match step
    case Insert(r) => InsertIds(st, r, ref, id, proot);
    case CloseRemove(i, t) => CloseIds(st, i, t, ref, id, proot);
    case _ => LookupShape(st, step);
  }

  lemma {:induction false} InsertIds(st: State, r: Ref, ref: Ref, id: SessionId, proot: bool)
    ensures IdLaws(st, Insert(r), ref, id, proot)
  {
  }

  lemma {:induction false} CloseIds(st: State, i: SessionId, t: Thread, ref: Ref, id: SessionId, proot: bool)
    ensures IdLaws(st, CloseRemove(i, t), ref, id, proot)
  {
  }

  lemma {:induction false} OpenIds(st: State, r: Ref, p: bool, ref: Ref, id: SessionId, proot: bool)
    ensures IdLaws(st, Open(r, p), ref, id, proot)
  {
  }

  lemma {:induction false} SpawnIds(st: State, r: Ref, ref: Ref, id: SessionId, proot: bool)
    ensures IdLaws(st, SpawnReaper(r), ref, id, proot)
  {
  }

  lemma {:induction false} AdvanceIds(st: State, t: Thread, ref: Ref, id: SessionId, proot: bool)
    requires Consistent(st)
    ensures IdLaws(st, Advance(t), ref, id, proot)
  {
    CloserKnown(st, t);
    if t in st.closers {
      AdvanceShape(st, t);
    }
  }

  lemma {:induction false} ReapIds(st: State, r: Ref, ref: Ref, id: SessionId, proot: bool)
    requires Consistent(st)
    ensures IdLaws(st, Reap(r), ref, id, proot)
  {
    if r in st.sessions {
      assert SessionOk(st, r);
      ReapShape(st, r);
    }
  }

  lemma {:induction false} StepIds(st: State, step: Step, ref: Ref, id: SessionId, proot: bool)
    requires Consistent(st)
    ensures IdLaws(st, step, ref, id, proot)
  {
    match step
    case Open(r, p) => OpenIds(st, r, p, ref, id, proot);
    case SpawnReaper(r) => SpawnIds(st, r, ref, id, proot);
    case Advance(t) => AdvanceIds(st, t, ref, id, proot);
    case Reap(r) => ReapIds(st, r, ref, id, proot);
    case _ => RequestIds(st, step, ref, id, proot);
  }

  /* ---------- threads ---------- */

  lemma {:induction false} LookupThreads(st: State, step: Step, t: Thread, ref: Ref, id: SessionId)
    requires step.LookupGet? || step.LookupCheck? || step.Write?
    ensures ThreadLaws(st, step, t, ref, id)
  {
    LookupShape(st, step);
  }

  lemma {:induction false} CloseThreads(st: State, i: SessionId, u: Thread, t: Thread, ref: Ref, id: SessionId)
    requires Consistent(st)
    ensures ThreadLaws(st, CloseRemove(i, u), t, ref, id)
  {
    SessionShape(st, CloseRemove(i, u));
  }

  lemma {:induction false} AdvanceThreads(st: State, u: Thread, t: Thread, ref: Ref, id: SessionId)
    requires Consistent(st)
    ensures ThreadLaws(st, Advance(u), t, ref, id)
  {
    CloserKnown(st, u);
    SessionShape(st, Advance(u));
  }

  lemma {:induction false} QuietThreads(st: State, step: Step, t: Thread, ref: Ref, id: SessionId)
    requires Consistent(st) && (step.Open? || step.Insert? || step.SpawnReaper? || step.Reap?)
    ensures ThreadLaws(st, step, t, ref, id)
  {
    SessionShape(st, step);
    if step.Reap? {
      ReapKeeps(st, step.ref);
    }
  }

  lemma {:induction false} StepThreads(st: State, step: Step, t: Thread, ref: Ref, id: SessionId)
    requires Consistent(st)
    ensures ThreadLaws(st, step, t, ref, id)
  {
    match step
    case CloseRemove(i, u) => CloseThreads(st, i, u, t, ref, id);
    case Advance(u) => AdvanceThreads(st, u, t, ref, id);
    case LookupGet(_, _) => LookupThreads(st, step, t, ref, id);
    case LookupCheck(_) => LookupThreads(st, step, t, ref, id);
    case Write(_) => LookupThreads(st, step, t, ref, id);
    case _ => QuietThreads(st, step, t, ref, id);
  }

  /* ---------- every run: since when ---------- */

  lemma {:induction false} LastStep(steps: seq<Step>)
    requires steps != []
    ensures Exec(steps) == Apply(Exec(steps[..|steps| - 1]), steps[|steps| - 1]) && Consistent(Exec(steps[..|steps| - 1]))
  {
    RunSafe(steps[..|steps| - 1]);
  }

  ghost function Never(): Moment<Step> {
    (before: seq<Step>, step: Step) => false
  }

  ghost function Opened(ref: Ref): Moment<Step> {
    (before: seq<Step>, step: Step) => Opens(Exec(before), step, ref)
  }

  ghost function OpenedAs(ref: Ref, id: SessionId, proot: bool): Moment<Step> {
    (before: seq<Step>, step: Step) => step == Open(ref, proot) && ref !in Exec(before).sessions && 1 + Count(before) == id
  }

  ghost function OpenedProot(ref: Ref): Moment<Step> {
    (before: seq<Step>, step: Step) => Opens(Exec(before), step, ref) && step.proot
  }

  /** How many sessions were opened. */
  function Count(steps: seq<Step>): nat {
    if steps == [] then 0
    else
      var before, last := steps[..|steps| - 1], steps[|steps| - 1];
      Count(before) + if last.Open? && last.ref !in Exec(before).sessions then 1 else 0
  }

  /** Sessions are numbered from 1 in the order they are opened, and keep number and kind. */
  lemma {:induction false} NumberedInOrder(steps: seq<Step>, ref: Ref, id: SessionId, proot: bool)
    ensures Exec(steps).nextId == 1 + Count(steps)
    ensures HasId(Exec(steps), ref, id, proot) <==> Since(steps, OpenedAs(ref, id, proot), Never())
  {
    if steps != [] {
      NumberedInOrder(steps[..|steps| - 1], ref, id, proot);
      SinceLast(steps, OpenedAs(ref, id, proot), Never());
      LastStep(steps);
      StepIds(Exec(steps[..|steps| - 1]), steps[|steps| - 1], ref, id, proot);
    }
  }

  ghost function Inserted(ref: Ref): Moment<Step> {
    (before: seq<Step>, step: Step) => step == Insert(ref)
  }

  ghost function ListedAs(id: SessionId, ref: Ref): Moment<Step> {
    (before: seq<Step>, step: Step) => Lists(Exec(before), step, id, ref)
  }

  ghost function TakenOff(id: SessionId, ref: Ref): Moment<Step> {
    (before: seq<Step>, step: Step) => ClosesId(Exec(before), step, id) || Reaps(Exec(before), step, ref, Silenced)
  }

  /** An id is registered from its insertion to the first close of it or the reaper's removal. */
  lemma {:induction false} RegisteredSince(steps: seq<Step>, id: SessionId, ref: Ref)
    ensures Registered(Exec(steps), id, ref) <==> Since(steps, ListedAs(id, ref), TakenOff(id, ref))
    ensures Waits(Exec(steps), ref) <==> Since(steps, Opened(ref), Inserted(ref))
  {
    if steps != [] {
      RegisteredSince(steps[..|steps| - 1], id, ref);
      SinceLast(steps, ListedAs(id, ref), TakenOff(id, ref));
      SinceLast(steps, Opened(ref), Inserted(ref));
      LastStep(steps);
      StepSession(Exec(steps[..|steps| - 1]), steps[|steps| - 1], ref, id);
    }
  }

  ghost function SetsClosed(ref: Ref): Moment<Step> {
    (before: seq<Step>, step: Step) => Advances(Exec(before), step, ref, AtSwap) || Reaps(Exec(before), step, ref, Reaped)
  }

  ghost function DropsWriter(ref: Ref): Moment<Step> {
    (before: seq<Step>, step: Step) => Advances(Exec(before), step, ref, AtWriter) || Reaps(Exec(before), step, ref, Marked)
  }

  ghost function TakesChild(ref: Ref): Moment<Step> {
    (before: seq<Step>, step: Step) => Advances(Exec(before), step, ref, AtKill)
  }

  /** A session can be written to until its closer or its reaper drops the writer; closed is for good. */
  lemma {:induction false} OpenSince(steps: seq<Step>, ref: Ref)
    ensures ClosedSession(Exec(steps), ref) <==> Since(steps, SetsClosed(ref), Never())
    ensures HasWriter(Exec(steps), ref) <==> Since(steps, Opened(ref), DropsWriter(ref))
    ensures HasChild(Exec(steps), ref) <==> Since(steps, OpenedProot(ref), TakesChild(ref))
  {
    if steps != [] {
      OpenSince(steps[..|steps| - 1], ref);
      SinceLast(steps, SetsClosed(ref), Never());
      SinceLast(steps, Opened(ref), DropsWriter(ref));
      SinceLast(steps, OpenedProot(ref), TakesChild(ref));
      LastStep(steps);
      StepSession(Exec(steps[..|steps| - 1]), steps[|steps| - 1], ref, 0);
    }
  }

  ghost function Gets(w: Thread, id: SessionId, ref: Ref): Moment<Step> {
    (before: seq<Step>, step: Step) => step == LookupGet(id, w) && w !in Exec(before).lookups && Registered(Exec(before), id, ref)
  }

  ghost function Answers(w: Thread): Moment<Step> {
    (before: seq<Step>, step: Step) => step == LookupCheck(w)
  }

  ghost function FoundOpen(ref: Ref): Moment<Step> {
    (before: seq<Step>, step: Step) => Checks(Exec(before), step, ref)
  }

  /** A lookup is under way from its get to its check; who found the session open may write for good. */
  lemma {:induction false} LookedUpSince(steps: seq<Step>, w: Thread, id: SessionId, ref: Ref)
    ensures LookingUp(Exec(steps), w, id, ref) <==> Since(steps, Gets(w, id, ref), Answers(w))
    ensures ref in Exec(steps).held <==> Since(steps, FoundOpen(ref), Never())
  {
    if steps != [] {
      LookedUpSince(steps[..|steps| - 1], w, id, ref);
      SinceLast(steps, Gets(w, id, ref), Answers(w));
      SinceLast(steps, FoundOpen(ref), Never());
      LastStep(steps);
      StepThreads(Exec(steps[..|steps| - 1]), steps[|steps| - 1], w, ref, id);
    }
  }

  /** The answers, writes, signals and reports of a run, each where its step was taken. */
  function Trace(steps: seq<Step>): seq<Event> {
    if steps == [] then [] else Trace(steps[..|steps| - 1]) + Noted(Exec(steps[..|steps| - 1]), steps[|steps| - 1])
  }

  lemma {:induction false} LogIsTrace(steps: seq<Step>)
    ensures Exec(steps).log == Trace(steps)
  {
    if steps != [] {
      LogIsTrace(steps[..|steps| - 1]);
      LastStep(steps);
      StepSession(Exec(steps[..|steps| - 1]), steps[|steps| - 1], 0, 0);
    }
  }

  /* ---------- the reaper reports ---------- */

  /** How far the reaper has got: started, then one operation per step. */
  function ReaperRank(steps: seq<Step>, ref: Ref): nat {
    if steps == [] then 0
    else NextRank(ReaperRank(steps[..|steps| - 1], ref), Exec(steps[..|steps| - 1]), steps[|steps| - 1], ref)
  }

  lemma {:induction false} ReaperRankIs(steps: seq<Step>, ref: Ref)
    ensures Rank(ReaperOf(Exec(steps), ref)) == ReaperRank(steps, ref)
  {
    if steps != [] {
      ReaperRankIs(steps[..|steps| - 1], ref);
      LastStep(steps);
      StepIds(Exec(steps[..|steps| - 1]), steps[|steps| - 1], ref, 0, false);
    }
  }

  /** The exit of a session is reported exactly once its reaper has taken its five steps, under its own id. */
  lemma {:induction false} ReportedIff(steps: seq<Step>, id: SessionId, ref: Ref)
    ensures Exited(id, ref) in Exec(steps).log <==>
              ReaperRank(steps, ref) == 6 && ref in Exec(steps).sessions && Exec(steps).sessions[ref].id == id
  {
    if steps != [] {
      var before, last := steps[..|steps| - 1], steps[|steps| - 1];
      ReportedIff(before, id, ref);
      LastStep(steps);
      ReaperRankIs(before, ref);
      StepSession(Exec(before), last, ref, id);
      StepIds(Exec(before), last, ref, id, true);
      StepIds(Exec(before), last, ref, id, false);
      ReportNoted(Exec(before), last, id, ref);
    }
  }

  lemma {:induction false} ReportNoted(st: State, step: Step, id: SessionId, ref: Ref)
    ensures Exited(id, ref) in Noted(st, step) <==> Reaps(st, step, ref, Forgotten) && st.sessions[ref].id == id
  {
  }

  /* ---------- a close finishes ---------- */

  /** One closer per session. */
  predicate Apart(st: State, t: Thread, u: Thread) {
    t in st.closers && u in st.closers && t != u ==> st.closers[t].ref != st.closers[u].ref
  }

  /** A session that is closed before its closer has swapped the flag was closed by its reaper. */
  predicate ReaperFirst(st: State, ref: Ref, t: Thread) {
    ClosedSession(st, ref) && (st.sessions[ref].listing != Delisted || CloserAt(st, t, ref, AtSwap)) ==> Rank(ReaperOf(st, ref)) >= 3
  }

  lemma {:induction false} CloserFrom(st: State, step: Step, t: Thread)
    requires Consistent(st) && t in Apply(st, step).closers
    ensures var ref := Apply(st, step).closers[t].ref;
      || (t in st.closers && st.closers[t].ref == ref)
      || (t !in st.closers && step.CloseRemove? && step.t == t && Registered(st, step.id, ref))
  {
    var c := Apply(st, step).closers[t];
    StepThreads(st, step, t, c.ref, 0);
    assert CloserAt(Apply(st, step), t, c.ref, c.stage);
    match c.stage
    case AtSwap =>
    case AtKill =>
    case AtWriter =>
  }

  lemma {:induction false} StepApart(st: State, step: Step, t: Thread, u: Thread)
    requires Consistent(st) && Apart(st, t, u)
    ensures Apart(Apply(st, step), t, u)
  {
    var st' := Apply(st, step);
    if t in st'.closers && u in st'.closers {
      CloserFrom(st, step, t);
      CloserFrom(st, step, u);
      if step.CloseRemove? {
        EntryKnown(st, step.id);
      }
      assert t in st.closers ==> CloserOk(st, t);
      assert u in st.closers ==> CloserOk(st, u);
    }
  }

  lemma {:induction false} RunApart(steps: seq<Step>, t: Thread, u: Thread)
    ensures Apart(Exec(steps), t, u)
  {
    if steps != [] {
      RunApart(steps[..|steps| - 1], t, u);
      LastStep(steps);
      StepApart(Exec(steps[..|steps| - 1]), steps[|steps| - 1], t, u);
    }
  }

  lemma {:induction false} StepReaperFirst(st: State, step: Step, ref: Ref, t: Thread)
    requires Consistent(st) && ReaperFirst(st, ref, t) && (step.Advance? ==> Apart(st, t, step.t))
    ensures ReaperFirst(Apply(st, step), ref, t)
  {
    StepSession(st, step, ref, 0);
    StepThreads(st, step, t, ref, 0);
    StepIds(st, step, ref, 0, false);
    StepConsistent(st, step);
    if step.CloseRemove? {
      EntryKnown(st, step.id);
    }
    if step.Advance? && step.t in st.closers {
      assert CloserOk(st, step.t);
    }
    if ref in st.sessions {
      assert Later(st.sessions[ref], Apply(st, step).sessions[ref]);
    }
  }

  lemma {:induction false} RunReaperFirst(steps: seq<Step>, ref: Ref, t: Thread)
    ensures ReaperFirst(Exec(steps), ref, t)
  {
    if steps != [] {
      var before, last := steps[..|steps| - 1], steps[|steps| - 1];
      RunReaperFirst(before, ref, t);
      LastStep(steps);
      if last.Advance? {
        RunApart(before, t, last.t);
      }
      StepReaperFirst(Exec(before), last, ref, t);
    }
  }

  /** Only a PRoot session has a child handle to take. */
  predicate ChildIsProot(st: State, ref: Ref) {
    HasChild(st, ref) ==> st.sessions[ref].proot
  }

  lemma {:induction false} RunChildIsProot(steps: seq<Step>, ref: Ref)
    ensures ChildIsProot(Exec(steps), ref)
  {
    if steps != [] {
      var before, last := steps[..|steps| - 1], steps[|steps| - 1];
      RunChildIsProot(before, ref);
      LastStep(steps);
      StepSession(Exec(before), last, ref, 0);
      StepConsistent(Exec(before), last);
      if ref in Exec(before).sessions {
        assert Later(Exec(before).sessions[ref], Exec(steps).sessions[ref]);
      }
    }
  }

  /** The child was taken to be killed, or its process group got the signals. */
  predicate Killed(st: State, ref: Ref) {
    ref in st.sessions && !st.sessions[ref].child && (st.sessions[ref].proot || Signalled(ref) in st.log)
  }

  /** Where a close by t stands after j of its own operations, unless the reaper got ahead of it. */
  predicate ClosedSoFar(st: State, t: Thread, ref: Ref, j: nat) {
    if j == 0 then CloserAt(st, t, ref, AtSwap)
    else
      && ClosedSession(st, ref)
      && (|| Rank(ReaperOf(st, ref)) >= 3
          || (j == 1 && CloserAt(st, t, ref, AtKill))
          || (j == 2 && CloserAt(st, t, ref, AtWriter) && Killed(st, ref))
          || (j >= 3 && !HasWriter(st, ref) && Killed(st, ref)))
  }

  lemma {:induction false} StepCloses(st: State, step: Step, t: Thread, ref: Ref, j: nat)
    requires Consistent(st) && ReaperFirst(st, ref, t) && ChildIsProot(st, ref) && ClosedSoFar(st, t, ref, j)
    ensures ClosedSoFar(Apply(st, step), t, ref, if step == Advance(t) then j + 1 else j)
  {
    StepSession(st, step, ref, 0);
    StepThreads(st, step, t, ref, 0);
    StepIds(st, step, ref, 0, false);
    StepConsistent(st, step);
    CloserKnown(st, t);
    assert ref in st.sessions && Later(st.sessions[ref], Apply(st, step).sessions[ref]);
    if step == Advance(t) && CloserAt(st, t, ref, AtKill) {
      KillNoted(st, t, ref);
    }
  }

  lemma {:induction false} KillNoted(st: State, t: Thread, ref: Ref)
    requires Consistent(st) && CloserAt(st, t, ref, AtKill) && ChildIsProot(st, ref)
    ensures Killed(Apply(st, Advance(t)), ref)
  {
    CloserKnown(st, t);
    StepSession(st, Advance(t), ref, 0);
    StepConsistent(st, Advance(t));
    assert Later(st.sessions[ref], Apply(st, Advance(t)).sessions[ref]);
    assert !HasChild(st, ref) ==> Noted(st, Advance(t)) == [Signalled(ref)];
  }

  function Advanced(steps: seq<Step>, t: Thread): nat {
    if steps == [] then 0 else Advanced(steps[..|steps| - 1], t) + if steps[|steps| - 1] == Advance(t) then 1 else 0
  }

  lemma {:induction false} CloseProgress(steps: seq<Step>, id: SessionId, t: Thread, ref: Ref, more: seq<Step>)
    requires t !in Exec(steps).closers && Registered(Exec(steps), id, ref)
    ensures ClosedSoFar(Exec(steps + [CloseRemove(id, t)] + more), t, ref, Advanced(more, t))
    decreases more
  {
    var start := steps + [CloseRemove(id, t)];
    if more == [] {
      assert start + more == start;
      ExecAppend(steps, CloseRemove(id, t));
      RunSafe(steps);
      StepThreads(Exec(steps), CloseRemove(id, t), t, ref, id);
    } else {
      var fewer, last := more[..|more| - 1], more[|more| - 1];
      CloseProgress(steps, id, t, ref, fewer);
      assert start + more == start + fewer + [last];
      ExecAppend(start + fewer, last);
      RunSafe(start + fewer);
      RunReaperFirst(start + fewer, ref, t);
      RunChildIsProot(start + fewer, ref);
      StepCloses(Exec(start + fewer), last, t, ref, Advanced(fewer, t));
    }
  }

  /**
    A close that found its id is through after three operations of its thread,
    however they are interleaved: the session is closed and its writer and
    process are dealt with, unless the reaper had closed it first.
   */
  lemma {:induction false} CloseFinishes(steps: seq<Step>, id: SessionId, t: Thread, ref: Ref, more: seq<Step>)
    requires t !in Exec(steps).closers && Registered(Exec(steps), id, ref) && Advanced(more, t) >= 3
    ensures var run := steps + [CloseRemove(id, t)] + more;
      && ClosedSession(Exec(run), ref) && id !in Exec(run).registry
      && (ReaperRank(run, ref) >= 3 || (!HasWriter(Exec(run), ref) && Killed(Exec(run), ref)))
  {
    var start := steps + [CloseRemove(id, t)];
    CloseProgress(steps, id, t, ref, more);
    ReaperRankIs(start + more, ref);
    RunSafe(start);
    RunSafe(steps);
    ExecAppend(steps, CloseRemove(id, t));
    RunContinues(start, more);
    EntryKnown(Exec(steps), id);
    assert SessionOk(Exec(steps), ref);
    DelistedIsGone(Exec(start), id, ref);
    GoneForever(Exec(start), more, id);
  }

  lemma {:induction false} DelistedIsGone(st: State, id: SessionId, ref: Ref)
    requires Consistent(st) && ref in st.sessions && st.sessions[ref].id == id && st.sessions[ref].listing == Delisted
    ensures Gone(st, id)
  {
    assert SessionOk(st, ref);
  }
}
