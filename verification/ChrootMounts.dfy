/**
  Mounts of a chroot session (native/src/chroot.rs:186-201, 289-302, 398-421,
  460-487, 542-575): bind what is not a mount point yet, remember it in a flag,
  and unmount what is flagged, in reverse order, when the script exits.

  The guest's dev/pts lies below dev, so what is mounted on dev decides which
  dev/pts a path names.
 */
module ChrootMounts {
  import opened Common

  datatype Point = Proc | Sys | Dev | DevPts | Pipewire | Wayland | X11 | Virgl

  type Source = nat

  /** A mount on dev brings its own pts directory, with its own mounts. */
  datatype DevMount = DevMount(source: Source, pts: seq<Source>)

  /** Mount stacks, top last; `basePts` is dev/pts of the bare root file system. */
  datatype Namespace = Namespace(
    proc: seq<Source>, sys: seq<Source>, dev: seq<DevMount>, basePts: seq<Source>,
    pipewire: seq<Source>, wayland: seq<Source>, x11: seq<Source>, virgl: seq<Source>)

  function Drop<T>(s: seq<T>): seq<T> {
    if s == [] then [] else s[..|s| - 1]
  }

  /** The mounts that the path dev/pts shows now. */
  function VisiblePts(ns: Namespace): seq<Source> {
    if ns.dev == [] then ns.basePts else ns.dev[|ns.dev| - 1].pts
  }

  function SetVisiblePts(ns: Namespace, pts: seq<Source>): Namespace {
    if ns.dev == [] then ns.(basePts := pts)
    else ns.(dev := Drop(ns.dev) + [ns.dev[|ns.dev| - 1].(pts := pts)])
  }

  /** mountpoint -q */
  predicate Mounted(ns: Namespace, p: Point) {
    match p
    case Proc => ns.proc != []
    case Sys => ns.sys != []
    case Dev => ns.dev != []
    case DevPts => VisiblePts(ns) != []
    case Pipewire => ns.pipewire != []
    case Wayland => ns.wayland != []
    case X11 => ns.x11 != []
    case Virgl => ns.virgl != []
  }

  /** mount --bind: a bind of /dev does not bring along what is mounted below it. */
  function Mount(ns: Namespace, p: Point, source: Source): Namespace {
    match p
    case Proc => ns.(proc := ns.proc + [source])
    case Sys => ns.(sys := ns.sys + [source])
    case Dev => ns.(dev := ns.dev + [DevMount(source, [])])
    case DevPts => SetVisiblePts(ns, VisiblePts(ns) + [source])
    case Pipewire => ns.(pipewire := ns.pipewire + [source])
    case Wayland => ns.(wayland := ns.wayland + [source])
    case X11 => ns.(x11 := ns.x11 + [source])
    case Virgl => ns.(virgl := ns.virgl + [source])
  }

  /** umount -l ... || true */
  function Umount(ns: Namespace, p: Point): Namespace {
    match p
    case Proc => ns.(proc := Drop(ns.proc))
    case Sys => ns.(sys := Drop(ns.sys))
    case Dev => ns.(dev := Drop(ns.dev))
    case DevPts => if VisiblePts(ns) == [] then ns else SetVisiblePts(ns, Drop(VisiblePts(ns)))
    case Pipewire => ns.(pipewire := Drop(ns.pipewire))
    case Wayland => ns.(wayland := Drop(ns.wayland))
    case X11 => ns.(x11 := Drop(ns.x11))
    case Virgl => ns.(virgl := Drop(ns.virgl))
  }

  lemma UmountUndoesMount(ns: Namespace, p: Point, source: Source)
    ensures Umount(Mount(ns, p, source), p) == ns
  {
    if p == DevPts && ns.dev != [] {
      var top := ns.dev[|ns.dev| - 1];
      assert ns.dev == Drop(ns.dev) + [top];
      assert Drop(top.pts + [source]) == top.pts;
    }
  }

  lemma UmountOfNothing(ns: Namespace, p: Point)
    requires !Mounted(ns, p)
    ensures Umount(ns, p) == ns
  {
  }

  /* ---------- the script ---------- */

  datatype Kind = Terminal | X11Session | WaylandSession

  /** The mount steps of a session, in script order; cleanup walks them backwards. */
  function Steps(kind: Kind, pipewire: bool, virgl: bool): seq<Point> {
    [Proc, Sys, Dev, DevPts]
    + (if pipewire then [Pipewire] else [])
    + (match kind
       case Terminal => []
       case X11Session => [X11] + (if virgl then [Virgl] else [])
       case WaylandSession => [Wayland] + (if virgl then [Virgl] else []))
  }

  /** What is bound onto each point; any values will do. */
  type Sources = map<Point, Source>

  function SourceOf(sources: Sources, p: Point): Source {
    if p in sources then sources[p] else 0
  }

  datatype Script = Script(ns: Namespace, flags: set<Point>)

  function PrepareOne(sc: Script, p: Point, sources: Sources): Script {
    if Mounted(sc.ns, p) then sc
    else Script(Mount(sc.ns, p, SourceOf(sources, p)), sc.flags + {p})
  }

  /** The steps that ran before the script exited, for whatever reason. */
  function Prepare(ns: Namespace, ps: seq<Point>, sources: Sources): Script {
    if ps == [] then Script(ns, {}) else PrepareOne(Prepare(ns, ps[..|ps| - 1], sources), ps[|ps| - 1], sources)
  }

  /** One run of cleanup(). */
  function Cleanup(ns: Namespace, flags: set<Point>, ps: seq<Point>): Namespace
    decreases ps
  {
    if ps == [] then ns
    else
      var p := ps[|ps| - 1];
      Cleanup(if p in flags then Umount(ns, p) else ns, flags, ps[..|ps| - 1])
  }

  /** A signal runs cleanup from its trap and again from the exit trap; flags stay set. */
  function CleanupTimes(ns: Namespace, flags: set<Point>, ps: seq<Point>, times: nat): Namespace
    decreases times
  {
    if times == 0 then ns else Cleanup(CleanupTimes(ns, flags, ps, times - 1), flags, ps)
  }

  /* ---------- one cleanup undoes the mounts ---------- */

  lemma {:induction false} FlagsAreSteps(ns: Namespace, ps: seq<Point>, sources: Sources)
    ensures forall p :: p in Prepare(ns, ps, sources).flags ==> p in ps
  {
    if ps != [] {
      FlagsAreSteps(ns, ps[..|ps| - 1], sources);
    }
  }

  lemma {:induction false} CleanupIgnores(ns: Namespace, flags: set<Point>, more: set<Point>, ps: seq<Point>)
    requires forall p :: p in ps ==> (p in flags <==> p in more)
    ensures Cleanup(ns, flags, ps) == Cleanup(ns, more, ps)
    decreases ps
  {
    if ps != [] {
      var p := ps[|ps| - 1];
      CleanupIgnores(if p in flags then Umount(ns, p) else ns, flags, more, ps[..|ps| - 1]);
    }
  }

  /** Cleanup over all steps when only the first k ran. */
  lemma {:induction false} CleanupSkips(ns: Namespace, flags: set<Point>, ps: seq<Point>, k: nat)
    requires k <= |ps| && forall p :: p in ps[k..] ==> p !in flags
    ensures Cleanup(ns, flags, ps) == Cleanup(ns, flags, ps[..k])
    decreases ps
  {
    if k < |ps| {
      var fewer := ps[..|ps| - 1];
      assert ps[|ps| - 1] == ps[k..][|ps| - 1 - k] && fewer[..k] == ps[..k];
      assert forall p :: p in fewer[k..] ==> p in ps[k..];
      CleanupSkips(ns, flags, fewer, k);
    } else {
      assert ps[..k] == ps;
    }
  }

  lemma {:induction false} CleanupUndoes(ns: Namespace, ps: seq<Point>, sources: Sources)
    requires NoDup(ps)
    ensures Cleanup(Prepare(ns, ps, sources).ns, Prepare(ns, ps, sources).flags, ps) == ns
  {
    if ps != [] {
      var fewer, p := ps[..|ps| - 1], ps[|ps| - 1];
      var before, after := Prepare(ns, fewer, sources), Prepare(ns, ps, sources);
      FlagsAreSteps(ns, fewer, sources);
      assert p !in fewer;
      UmountUndoesMount(before.ns, p, SourceOf(sources, p));
      CleanupIgnores(before.ns, before.flags, after.flags, fewer);
      CleanupUndoes(ns, fewer, sources);
    }
  }

  /* ---------- what a second cleanup does ---------- */

  lemma MountLeavesOthers(ns: Namespace, p: Point, q: Point, source: Source)
    requires p != q && q != DevPts
    ensures Mounted(Mount(ns, p, source), q) == Mounted(ns, q)
  {
  }

  /** A flag means the point was free, as seen through the original dev for everything but dev/pts. */
  lemma {:induction false} FlaggedWasFree(ns: Namespace, ps: seq<Point>, sources: Sources, q: Point)
    requires NoDup(ps) && q != DevPts
    ensures q in Prepare(ns, ps, sources).flags <==> q in ps && !Mounted(ns, q)
    ensures q !in ps ==> (Mounted(Prepare(ns, ps, sources).ns, q) <==> Mounted(ns, q))
  {
    if ps != [] {
      var fewer, p := ps[..|ps| - 1], ps[|ps| - 1];
      FlaggedWasFree(ns, fewer, sources, q);
      assert p !in fewer && (q in ps <==> q in fewer || q == p);
      if p != q {
        MountLeavesOthers(Prepare(ns, fewer, sources).ns, p, q, SourceOf(sources, p));
      }
    }
  }

  /** Binding /dev hides whatever was mounted on dev/pts before. */
  lemma {:induction false} PtsSeen(ns: Namespace, ps: seq<Point>, sources: Sources)
    requires NoDup(ps) && DevPts !in ps
    ensures VisiblePts(Prepare(ns, ps, sources).ns) == if Dev in Prepare(ns, ps, sources).flags then [] else VisiblePts(ns)
  {
    if ps != [] {
      var fewer := ps[..|ps| - 1];
      PtsSeen(ns, fewer, sources);
      FlagsAreSteps(ns, fewer, sources);
      assert ps[|ps| - 1] !in fewer;
    }
  }

  predicate DevFirst(ps: seq<Point>) {
    forall i :: 0 <= i < |ps| && ps[i] == DevPts ==> Dev in ps[..i]
  }

  lemma {:induction false} PtsFlag(ns: Namespace, ps: seq<Point>, sources: Sources)
    requires NoDup(ps) && DevFirst(ps)
    ensures DevPts in Prepare(ns, ps, sources).flags <==> DevPts in ps && (ns.dev == [] || VisiblePts(ns) == [])
  {
    if ps != [] {
      var fewer, p := ps[..|ps| - 1], ps[|ps| - 1];
      assert p !in fewer;
      assert DevFirst(fewer) by {
        assert forall i :: 0 <= i < |fewer| ==> fewer[..i] == ps[..i];
      }
      PtsFlag(ns, fewer, sources);
      if p == DevPts {
        PtsSeen(ns, fewer, sources);
        FlaggedWasFree(ns, fewer, sources, Dev);
        assert ps[..|ps| - 1] == fewer;
      }
    }
  }

  /** Flags of a restored namespace: nothing of ours is mounted; only the bare dev/pts may be. */
  predicate Idle(ns: Namespace, flags: set<Point>) {
    && (forall p :: p in flags && p != DevPts ==> !Mounted(ns, p))
    && (DevPts in flags && VisiblePts(ns) != [] ==> ns.dev == [])
  }

  lemma {:induction false} CleanupIdle(ns: Namespace, flags: set<Point>, ps: seq<Point>)
    requires NoDup(ps) && Idle(ns, flags)
    ensures Cleanup(ns, flags, ps) == if DevPts in flags && DevPts in ps then Umount(ns, DevPts) else ns
    ensures Idle(Cleanup(ns, flags, ps), flags)
    decreases ps
  {
    if ps != [] {
      var fewer, p := ps[..|ps| - 1], ps[|ps| - 1];
      assert p !in fewer && (DevPts in ps <==> DevPts in fewer || DevPts == p);
      if p in flags && p != DevPts {
        UmountOfNothing(ns, p);
      }
      var ns1 := if p in flags then Umount(ns, p) else ns;
      assert Idle(ns1, flags);
      CleanupIdle(ns1, flags, fewer);
    }
  }

  /** The guest had something on dev/pts while dev itself was not a mount point. */
  predicate PtsUnderBareDev(ns: Namespace) {
    ns.dev == [] && ns.basePts != []
  }

  lemma PreparedIdle(ns: Namespace, ps: seq<Point>, sources: Sources)
    requires NoDup(ps) && DevFirst(ps)
    ensures Idle(ns, Prepare(ns, ps, sources).flags)
  {
    forall p | p in Prepare(ns, ps, sources).flags && p != DevPts
      ensures !Mounted(ns, p)
    {
      FlaggedWasFree(ns, ps, sources, p);
    }
    PtsFlag(ns, ps, sources);
  }

  /** How many of n mounts survive the cleanups after the first. */
  function Left(n: nat, times: nat): (left: nat)
    requires times > 0
    ensures left <= n
  {
    if times <= n then n - (times - 1) else 0
  }

  lemma {:induction false} CleanupTimesIs(ns: Namespace, ps: seq<Point>, sources: Sources, times: nat)
    requires NoDup(ps) && DevFirst(ps) && times > 0
    ensures var sc := Prepare(ns, ps, sources);
      var end := CleanupTimes(sc.ns, sc.flags, ps, times);
      && Idle(end, sc.flags)
      && (if DevPts in sc.flags && VisiblePts(ns) != []
          then end == ns.(basePts := ns.basePts[..Left(|ns.basePts|, times)])
          else end == ns)
    decreases times
  {
    var sc := Prepare(ns, ps, sources);
    PreparedIdle(ns, ps, sources);
    if times == 1 {
      CleanupUndoes(ns, ps, sources);
      assert CleanupTimes(sc.ns, sc.flags, ps, 0) == sc.ns;
      assert ns.basePts[..|ns.basePts|] == ns.basePts;
      assert |ns.basePts| > 0 ==> Left(|ns.basePts|, times) == |ns.basePts|;
    } else {
      CleanupTimesIs(ns, ps, sources, times - 1);
      FlagsAreSteps(ns, ps, sources);
      CleanupIdle(CleanupTimes(sc.ns, sc.flags, ps, times - 1), sc.flags, ps);
      OneFewer(ns.basePts, times);
    }
  }

  lemma {:induction false} OneFewer(pts: seq<Source>, times: nat)
    requires times > 1
    ensures Drop(pts[..Left(|pts|, times - 1)]) == pts[..Left(|pts|, times)]
  {
  }

  /* ---------- the three kinds of session ---------- */

  lemma StepsOrdered(kind: Kind, pipewire: bool, virgl: bool, k: nat)
    requires k <= |Steps(kind, pipewire, virgl)|
    ensures var all := Steps(kind, pipewire, virgl);
      NoDup(all) && NoDup(all[..k]) && DevFirst(all[..k]) && (DevPts in all[..k] <==> k >= 4)
  {
    var all := Steps(kind, pipewire, virgl);
    assert all[2] == Dev && all[3] == DevPts;
    if k >= 4 {
      assert all[..k][3] == DevPts && all[..k][..3][2] == Dev;
    }
  }

  lemma {:induction false} TimesSkips(ns: Namespace, flags: set<Point>, ps: seq<Point>, k: nat, times: nat)
    requires k <= |ps| && forall p :: p in ps[k..] ==> p !in flags
    ensures CleanupTimes(ns, flags, ps, times) == CleanupTimes(ns, flags, ps[..k], times)
    decreases times
  {
    if times > 0 {
      TimesSkips(ns, flags, ps, k, times - 1);
      CleanupSkips(CleanupTimes(ns, flags, ps, times - 1), flags, ps, k);
    }
  }

  /** The namespace after k mount steps and `times` runs of cleanup. */
  function Outcome(kind: Kind, pipewire: bool, virgl: bool, ns: Namespace, sources: Sources, k: nat, times: nat): Namespace
    requires k <= |Steps(kind, pipewire, virgl)|
  {
    var all := Steps(kind, pipewire, virgl);
    var sc := Prepare(ns, all[..k], sources);
    CleanupTimes(sc.ns, sc.flags, all, times)
  }

  /**
    Wherever the script exits, cleanup restores every mount stack; only a
    second cleanup can go too far, exactly where the session covered a mount on
    dev/pts by binding a bare dev.
   */
  lemma SessionRestoresIff(kind: Kind, pipewire: bool, virgl: bool, ns: Namespace, sources: Sources, k: nat, times: nat)
    requires k <= |Steps(kind, pipewire, virgl)| && times > 0
    ensures Outcome(kind, pipewire, virgl, ns, sources, k, times) == ns
            <==> times == 1 || k < 4 || !PtsUnderBareDev(ns)
  {
    var all := Steps(kind, pipewire, virgl);
    var done := all[..k];
    StepsOrdered(kind, pipewire, virgl, k);
    var sc := Prepare(ns, done, sources);
    FlagsAreSteps(ns, done, sources);
    NotReached(all, k, sc.flags);
    TimesSkips(sc.ns, sc.flags, all, k, times);
    CleanupTimesIs(ns, done, sources, times);
    PtsFlag(ns, done, sources);
    Shortened(ns.basePts, times);
  }

  /** Steps the script did not get to have no flag. */
  lemma {:induction false} NotReached(all: seq<Point>, k: nat, flags: set<Point>)
    requires k <= |all| && NoDup(all) && forall p :: p in flags ==> p in all[..k]
    ensures forall p :: p in all[k..] ==> p !in flags
  {
    forall p | p in all[k..]
      ensures p !in flags
    {
      var j :| 0 <= j < |all[k..]| && all[k..][j] == p;
      assert all[k + j] == p;
    }
  }

  lemma {:induction false} Shortened(pts: seq<Source>, times: nat)
    requires times > 0
    ensures pts[..Left(|pts|, times)] == pts <==> times == 1 || pts == []
  {
    assert pts[..|pts|] == pts;
    assert |pts[..Left(|pts|, times)]| == Left(|pts|, times);
  }

  /* ---------- what the session sees ---------- */

  /** What the path of a mount point shows; None is the directory of the root file system. */
  function Top(ns: Namespace, p: Point): Option<Source> {
    match p
    case Proc => Last(ns.proc)
    case Sys => Last(ns.sys)
    case Dev => if ns.dev == [] then None else Some(ns.dev[|ns.dev| - 1].source)
    case DevPts => Last(VisiblePts(ns))
    case Pipewire => Last(ns.pipewire)
    case Wayland => Last(ns.wayland)
    case X11 => Last(ns.x11)
    case Virgl => Last(ns.virgl)
  }

  function Last(s: seq<Source>): Option<Source> {
    if s == [] then None else Some(s[|s| - 1])
  }

  lemma {:induction false} MountShows(ns: Namespace, p: Point, q: Point, source: Source)
    ensures Top(Mount(ns, p, source), q) ==
      if q == p then Some(source) else if q == DevPts && p == Dev then None else Top(ns, q)
    ensures Mounted(ns, q) <==> Top(ns, q).Some?
  {
  }

  /** A point outside the steps is untouched; one among them shows its source, or what was there already. */
  lemma {:induction false} StepsShow(ns: Namespace, ps: seq<Point>, sources: Sources, q: Point)
    requires NoDup(ps) && q != DevPts
    ensures Top(Prepare(ns, ps, sources).ns, q) ==
      if q in ps && Top(ns, q) == None then Some(SourceOf(sources, q)) else Top(ns, q)
  {
    if ps != [] {
      var fewer, p := ps[..|ps| - 1], ps[|ps| - 1];
      StepsShow(ns, fewer, sources, q);
      assert p !in fewer && (q in ps <==> q in fewer || q == p);
      MountShows(Prepare(ns, fewer, sources).ns, p, q, SourceOf(sources, p));
      MountShows(Prepare(ns, fewer, sources).ns, p, p, SourceOf(sources, p));
    }
  }

  /** dev/pts shows its source unless the guest's own dev came with a mount on it. */
  lemma {:induction false} PtsShow(ns: Namespace, ps: seq<Point>, sources: Sources)
    requires NoDup(ps) && DevFirst(ps) && DevPts in ps
    ensures Top(Prepare(ns, ps, sources).ns, DevPts) ==
      if ns.dev == [] || Top(ns, DevPts) == None then Some(SourceOf(sources, DevPts)) else Top(ns, DevPts)
  {
    var fewer, p := ps[..|ps| - 1], ps[|ps| - 1];
    assert p !in fewer && DevFirst(fewer) by {
      assert forall i :: 0 <= i < |fewer| ==> fewer[..i] == ps[..i];
    }
    MountShows(Prepare(ns, fewer, sources).ns, p, DevPts, SourceOf(sources, p));
    if p == DevPts {
      PtsSeen(ns, fewer, sources);
      FlaggedWasFree(ns, fewer, sources, Dev);
      assert ps[..|ps| - 1] == fewer;
    } else {
      DevBeforePts(ps);
      PtsShow(ns, fewer, sources);
    }
  }

  lemma {:induction false} DevBeforePts(ps: seq<Point>)
    requires NoDup(ps) && DevFirst(ps) && DevPts in ps
    ensures ps[|ps| - 1] != Dev
  {
    var i :| 0 <= i < |ps| && ps[i] == DevPts;
    var j :| 0 <= j < |ps[..i]| && ps[..i][j] == Dev;
    assert ps[j] == Dev;
  }

  /** The guest paths a session of each kind is promised. */
  predicate Promised(kind: Kind, pipewire: bool, virgl: bool, p: Point) {
    match p
    case Proc => true
    case Sys => true
    case Dev => true
    case DevPts => true
    case Pipewire => pipewire
    case X11 => kind == X11Session
    case Wayland => kind == WaylandSession
    case Virgl => virgl && kind != Terminal
  }

  lemma {:induction false} StepsPromised(kind: Kind, pipewire: bool, virgl: bool, p: Point)
    ensures p in Steps(kind, pipewire, virgl) <==> Promised(kind, pipewire, virgl, p)
  {
    var all := Steps(kind, pipewire, virgl);
    assert all[0] == Proc && all[1] == Sys && all[2] == Dev && all[3] == DevPts;
  }

  /**
    A session whose mount steps all ran sees its own source on every promised
    path, except where the guest had a mount already, and every other path as
    it was.
   */
  lemma {:induction false} SessionSees(kind: Kind, pipewire: bool, virgl: bool, ns: Namespace, sources: Sources, p: Point)
    ensures var after := Prepare(ns, Steps(kind, pipewire, virgl), sources).ns;
      Top(after, p) ==
        if !Promised(kind, pipewire, virgl, p) then Top(ns, p)
        else if Top(ns, p) == None || (p == DevPts && ns.dev == []) then Some(SourceOf(sources, p))
        else Top(ns, p)
  {
    var all := Steps(kind, pipewire, virgl);
    StepsPromised(kind, pipewire, virgl, p);
    StepsOrdered(kind, pipewire, virgl, |all|);
    assert all[..|all|] == all;
    if p == DevPts {
      PtsShow(ns, all, sources);
    } else {
      StepsShow(ns, all, sources, p);
    }
  }

  /** The generated script, step by step, with an exit after k mount steps. */
  method RunSession(kind: Kind, pipewire: bool, virgl: bool, before: Namespace, sources: Sources, k: nat, times: nat)
    returns (ns: Namespace)
    requires k <= |Steps(kind, pipewire, virgl)|
    ensures ns == Outcome(kind, pipewire, virgl, before, sources, k, times)
  {
    var all := Steps(kind, pipewire, virgl);
    var flags: set<Point>;
    ns, flags := RunMounts(all, before, sources, k);
    ns := RunCleanups(ns, flags, all, times);
  }

  /** The mount steps up to the exit, each with its flag. */
  method RunMounts(all: seq<Point>, before: Namespace, sources: Sources, k: nat) returns (ns: Namespace, flags: set<Point>)
    requires k <= |all|
    ensures Script(ns, flags) == Prepare(before, all[..k], sources)
  {
    ns, flags := before, {};
    var i := 0;
    while i < k
      invariant 0 <= i <= k
      invariant Script(ns, flags) == Prepare(before, all[..i], sources)
    {
      assert all[..i + 1][..i] == all[..i];
      if !Mounted(ns, all[i]) {
        ns := Mount(ns, all[i], SourceOf(sources, all[i]));
        flags := flags + {all[i]};
      }
      i := i + 1;
    }
  }

  method RunCleanups(before: Namespace, flags: set<Point>, ps: seq<Point>, times: nat) returns (ns: Namespace)
    ensures ns == CleanupTimes(before, flags, ps, times)
  {
    ns := before;
    var t := 0;
    while t < times
      invariant 0 <= t <= times
      invariant ns == CleanupTimes(before, flags, ps, t)
    {
      ns := RunCleanup(ns, flags, ps);
      t := t + 1;
    }
  }

  method RunCleanup(before: Namespace, flags: set<Point>, ps: seq<Point>) returns (ns: Namespace)
    ensures ns == Cleanup(before, flags, ps)
  {
    ns := before;
    var i := |ps|;
    assert ps[..i] == ps;
    while i > 0
      invariant 0 <= i <= |ps|
      invariant Cleanup(ns, flags, ps[..i]) == Cleanup(before, flags, ps)
    {
      i := i - 1;
      assert ps[..i + 1][..i] == ps[..i];
      if ps[i] in flags {
        ns := Umount(ns, ps[i]);
      }
    }
  }
}
