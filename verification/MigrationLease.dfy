/**
 The migration lease: a lock file contended by any number of processes. Every file-system call is a
 separate event, and events of different processes interleave freely.

 Tokens are fresh, process ids are not reused, and a process is reported dead only when it is.
 */
module MigrationLease {
  import opened Json

  type Pid = nat
  type Token = nat

  /** The contents of a lock or pending file; also what its digest identifies. */
  datatype Stamp = Stamp(pid: Pid, token: Token)

  datatype Phase =
    | Idle
    | Scanning(names: set<Stamp>)
    | DroppingPending(names: set<Stamp>, doomed: Stamp)
    | Scanned
    | ReadOnce(first: Stamp)
    | ReadTwice(first: Stamp, second: Stamp)
    | Judged(first: Stamp, second: Stamp)
    | Verified(first: Stamp)
    | Clear
    | Drafted(stamp: Stamp)
    | Linked(stamp: Stamp)
    | Holding(stamp: Stamp)

  /** `retired` remembers the contents a lock file has lost and `drafted` all contents ever written. */
  datatype World = World(
    procs: map<Pid, Phase>, alive: set<Pid>, lock: Option<Stamp>, pendings: set<Stamp>,
    retired: set<Stamp>, drafted: set<Stamp>, linked: set<Stamp>)

  datatype Event =
    | Spawn(pid: Pid)
    | Die(pid: Pid)
    | Scan(pid: Pid)
    | InspectPending(pid: Pid, name: Stamp)
    | DropPending(pid: Pid)
    | InspectLock(pid: Pid)
    | ReadAgain(pid: Pid)
    | CheckAlive(pid: Pid)
    | VerifyAndUnlink(pid: Pid)
    | Verify(pid: Pid)
    | UnlinkVerified(pid: Pid)
    | Draft(pid: Pid, token: Token)
    | LinkLock(pid: Pid)
    | DropOwnPending(pid: Pid)
    | Release(pid: Pid)

  const INITIAL := World(map[], {}, None, {}, {}, {}, {})

  function To(w: World, p: Pid, phase: Phase): World {
    w.(procs := w.procs[p := phase])
  }

  /** The lock file goes away, whoever it belonged to. */
  function Unlocked(w: World): World {
    match w.lock
    case None => w
    case Some(x) => w.(lock := None, retired := w.retired + {x})
  }

  /** The world after an event, or nothing when the event cannot happen. `Idle` is also "blocked". */
  function Apply(w: World, e: Event): Option<World> {
    var p := e.pid;
    if e.Spawn? then
      if p in w.procs then None else Some(To(w, p, Idle).(alive := w.alive + {p}))
    else if p !in w.procs || p !in w.alive then None
    else if e.Die? then Some(w.(alive := w.alive - {p}))
    else
      match (e, w.procs[p])
      case (Scan(_), Idle) => Some(To(w, p, Scanning(w.pendings)))
      case (InspectPending(_, n), Scanning(names)) =>
        if n !in names then None
        else if n !in w.pendings || n.pid in w.alive then Some(To(w, p, Idle))
        else Some(To(w, p, DroppingPending(names, n)))
      case (DropPending(_), DroppingPending(names, n)) =>
        Some(To(w, p, Scanning(names - {n})).(pendings := w.pendings - {n}))
      case (InspectLock(_), Scanning(names)) =>
        if names != {} then None
        else match w.lock { case None => Some(To(w, p, Clear)) case Some(x) => Some(To(w, p, ReadOnce(x))) }
      case (ReadAgain(_), ReadOnce(first)) =>
        (match w.lock case None => Some(To(w, p, Idle)) case Some(second) => Some(To(w, p, ReadTwice(first, second))))
      case (CheckAlive(_), ReadTwice(first, second)) =>
        if second.pid in w.alive then Some(To(w, p, Idle)) else Some(To(w, p, Judged(first, second)))
      case (VerifyAndUnlink(_), Judged(first, _)) =>
        if w.lock == None then Some(To(w, p, Clear))
        else if w.lock == Some(first) then Some(To(Unlocked(w), p, Clear))
        else Some(To(w, p, Idle))
      case (Verify(_), Judged(first, _)) =>
        if w.lock == None then Some(To(w, p, Clear))
        else if w.lock == Some(first) then Some(To(w, p, Verified(first)))
        else Some(To(w, p, Idle))
      case (UnlinkVerified(_), Verified(_)) => Some(To(Unlocked(w), p, Clear))
      case (Draft(_, token), Clear) =>
        var stamp := Stamp(p, token);
        if stamp in w.drafted then None
        else if w.lock != None then Some(To(w, p, Idle))
        else Some(To(w, p, Drafted(stamp)).(pendings := w.pendings + {stamp}, drafted := w.drafted + {stamp}))
      case (LinkLock(_), Drafted(stamp)) =>
        if w.lock == None && stamp in w.pendings then
          Some(To(w, p, Linked(stamp)).(lock := Some(stamp), linked := w.linked + {stamp}))
        else Some(To(w, p, Idle).(pendings := w.pendings - {stamp}))
      case (DropOwnPending(_), Linked(stamp)) =>
        Some(To(w, p, Holding(stamp)).(pendings := w.pendings - {stamp}))
      case (Release(_), Holding(stamp)) =>
        if w.lock == Some(stamp) then Some(To(Unlocked(w), p, Idle)) else Some(To(w, p, Idle))
      case _ => None
  }

  /** The world after a sequence of events, or nothing when one of them cannot happen. */
  function Run(w: World, events: seq<Event>): Option<World>
    decreases |events|
  {
    if events == [] then Some(w)
    else match Apply(w, events[0]) { case None => None case Some(v) => Run(v, events[1..]) }
  }

  /** The digest check and the unlink of a stale lock happen as one step. */
  predicate Atomic(events: seq<Event>) {
    forall i :: 0 <= i < |events| ==> !events[i].UnlinkVerified?
  }

  // ---------------------------------------------------------------- the invariant

  ghost predicate Owns(w: World, p: Pid, stamp: Stamp) {
    p in w.procs && p in w.alive && (w.procs[p] == Linked(stamp) || w.procs[p] == Holding(stamp))
  }

  /** A live owner's stamp is what the lock file holds. */
  ghost predicate OwnersLocked(w: World) {
    forall p, stamp :: Owns(w, p, stamp) ==> stamp.pid == p && w.lock == Some(stamp)
  }

  ghost predicate PhaseOk(w: World, p: Pid, phase: Phase) {
    match phase
    case ReadOnce(first) => first in w.linked
    case ReadTwice(first, second) =>
      first in w.linked && second.pid in w.procs && (first == second || first in w.retired)
    case Judged(first, second) =>
      && first in w.linked && second.pid !in w.alive && second.pid in w.procs
      && (first == second || first in w.retired)
    case Verified(first) => first.pid !in w.alive && first.pid in w.procs
    case Drafted(stamp) => stamp.pid == p && stamp in w.drafted && stamp !in w.linked
    case Linked(stamp) => stamp in w.linked
    case Holding(stamp) => stamp in w.linked
    case _ => true
  }

  ghost predicate Inv(w: World) {
    && OwnersLocked(w)
    && w.alive <= w.procs.Keys
    && (w.lock.Some? ==> w.lock.value in w.linked && w.lock.value !in w.retired)
    && w.retired <= w.linked <= w.drafted
    && (forall x :: x in w.linked ==> x in w.retired || w.lock == Some(x))
    && (forall x :: x in w.drafted ==> x.pid in w.procs)
    && (forall p :: p in w.procs ==> PhaseOk(w, p, w.procs[p]))
  }

  lemma MoveKeeps(w: World, p: Pid, phase: Phase)
    requires Inv(w) && p in w.procs && p in w.alive && PhaseOk(w, p, phase)
    requires forall stamp :: phase == Linked(stamp) || phase == Holding(stamp) ==> Owns(w, p, stamp)
    ensures Inv(To(w, p, phase))
  {
    var v := To(w, p, phase);
    forall q, stamp | Owns(v, q, stamp) ensures Owns(w, q, stamp) {}
    forall q | q in v.procs ensures PhaseOk(v, q, v.procs[q]) {
      assert PhaseOk(w, q, w.procs[q]);
    }
  }

  lemma PendingsDoNotMatter(w: World, pendings: set<Stamp>)
    requires Inv(w)
    ensures Inv(w.(pendings := pendings))
  {
    var v := w.(pendings := pendings);
    forall q, stamp | Owns(v, q, stamp) ensures Owns(w, q, stamp) {}
    forall q | q in v.procs ensures PhaseOk(v, q, v.procs[q]) {
      assert PhaseOk(w, q, w.procs[q]);
    }
  }

  /** Removing the lock file is safe exactly when no live process owns it. */
  lemma UnlockSafeIff(w: World)
    requires Inv(w)
    ensures Inv(Unlocked(w)) <==> (w.lock.Some? ==> !Owns(w, w.lock.value.pid, w.lock.value))
  {
    var v := Unlocked(w);
    if w.lock.Some? {
      var x := w.lock.value;
      if Owns(w, x.pid, x) {
        assert Owns(v, x.pid, x);
      } else {
        forall q, stamp | Owns(v, q, stamp) ensures Owns(w, q, stamp) {}
        forall q | q in v.procs ensures PhaseOk(v, q, v.procs[q]) {
          assert PhaseOk(w, q, w.procs[q]);
        }
      }
    }
  }

  lemma SpawnKeeps(w: World, p: Pid)
    requires Inv(w) && p !in w.procs
    ensures Inv(To(w, p, Idle).(alive := w.alive + {p}))
  {
    var v := To(w, p, Idle).(alive := w.alive + {p});
    forall q, stamp | Owns(v, q, stamp) ensures Owns(w, q, stamp) {}
    forall q | q in v.procs ensures PhaseOk(v, q, v.procs[q]) {
      assert q in w.procs ==> PhaseOk(w, q, w.procs[q]);
    }
  }

  lemma DieKeeps(w: World, p: Pid)
    requires Inv(w)
    ensures Inv(w.(alive := w.alive - {p}))
  {
    var v := w.(alive := w.alive - {p});
    forall q, stamp | Owns(v, q, stamp) ensures Owns(w, q, stamp) {}
    forall q | q in v.procs ensures PhaseOk(v, q, v.procs[q]) {
      assert PhaseOk(w, q, w.procs[q]);
    }
  }

  lemma DraftKeeps(w: World, p: Pid, stamp: Stamp)
    requires Inv(w) && p in w.procs && p in w.alive && stamp.pid == p && stamp !in w.drafted
    ensures Inv(To(w, p, Drafted(stamp)).(pendings := w.pendings + {stamp}, drafted := w.drafted + {stamp}))
  {
    var u := w.(drafted := w.drafted + {stamp});
    assert Inv(u) by {
      forall q, s | Owns(u, q, s) ensures Owns(w, q, s) {}
      forall q | q in u.procs ensures PhaseOk(u, q, u.procs[q]) {
        assert PhaseOk(w, q, w.procs[q]);
      }
    }
    MoveKeeps(u, p, Drafted(stamp));
    PendingsDoNotMatter(To(u, p, Drafted(stamp)), w.pendings + {stamp});
  }

  lemma LinkKeeps(w: World, p: Pid, stamp: Stamp)
    requires Inv(w) && p in w.procs && p in w.alive && w.procs[p] == Drafted(stamp) && w.lock == None
    ensures Inv(To(w, p, Linked(stamp)).(lock := Some(stamp), linked := w.linked + {stamp}))
  {
    var v := To(w, p, Linked(stamp)).(lock := Some(stamp), linked := w.linked + {stamp});
    assert PhaseOk(w, p, w.procs[p]);
    forall q, s | Owns(v, q, s) ensures q == p && s == stamp {
      assert !Owns(w, q, s);
    }
    forall q | q in v.procs ensures PhaseOk(v, q, v.procs[q]) {
      assert PhaseOk(w, q, w.procs[q]);
    }
  }

  /** No event but the second half of a split check-and-unlink can break the invariant. */
  lemma StepKeeps(w: World, e: Event)
    requires Inv(w) && Apply(w, e).Some? && !e.UnlinkVerified?
    ensures Inv(Apply(w, e).value)
  {
    var p := e.pid;
    var v := Apply(w, e).value;
    if e.Spawn? {
      SpawnKeeps(w, p);
    } else if e.Die? {
      DieKeeps(w, p);
    } else {
      assert PhaseOk(w, p, w.procs[p]);
      if e.Draft? && v.procs[p].Drafted? {
        DraftKeeps(w, p, Stamp(p, e.token));
      } else if e.LinkLock? && v.procs[p].Linked? {
        LinkKeeps(w, p, w.procs[p].stamp);
      } else if (e.VerifyAndUnlink? || e.Release?) && v.lock != w.lock {
        UnlockStep(w, e);
      } else {
        MoveKeeps(w, p, v.procs[p]);
        PendingsDoNotMatter(To(w, p, v.procs[p]), v.pendings);
      }
    }
  }

  /** The checked unlink of a stale lock, and a release: both end with no lock. */
  lemma UnlockStep(w: World, e: Event)
    requires Inv(w) && Apply(w, e).Some? && (e.VerifyAndUnlink? || e.Release?) && Apply(w, e).value.lock != w.lock
    ensures Inv(Apply(w, e).value)
  {
    var p := e.pid;
    var v := Apply(w, e).value;
    assert PhaseOk(w, p, w.procs[p]);
    var u := To(w, p, v.procs[p]);
    MoveKeeps(w, p, v.procs[p]);
    if e.Release? {
      assert Owns(w, p, w.procs[p].stamp);
    } else {
      assert w.procs[p].first == w.procs[p].second;
    }
    assert !Owns(u, u.lock.value.pid, u.lock.value);
    UnlockSafeIff(u);
    assert Unlocked(u) == v;
  }

  // ---------------------------------------------------------------- theorems

  lemma {:induction false} RunKeeps(w: World, events: seq<Event>)
    requires Inv(w) && Atomic(events) && Run(w, events).Some?
    ensures Inv(Run(w, events).value)
    decreases |events|
  {
    if events != [] {
      StepKeeps(w, events[0]);
      RunKeeps(Apply(w, events[0]).value, events[1..]);
    }
  }

  /** In every run at most one live process holds the lease, and the lock file is its own. */
  lemma MutualExclusion(events: seq<Event>, p: Pid, q: Pid, a: Stamp, b: Stamp)
    requires Atomic(events) && Run(INITIAL, events).Some?
    requires Owns(Run(INITIAL, events).value, p, a) && Owns(Run(INITIAL, events).value, q, b)
    ensures p == q && a == b && Run(INITIAL, events).value.lock == Some(a)
  {
    RunKeeps(INITIAL, events);
  }

  /** No event of another process takes the lease from a live owner or removes its lock file. */
  lemma NoTheft(events: seq<Event>, e: Event, p: Pid, stamp: Stamp)
    requires Atomic(events) && Run(INITIAL, events).Some?
    requires Apply(Run(INITIAL, events).value, e).Some? && !e.UnlinkVerified?
    requires Owns(Run(INITIAL, events).value, p, stamp) && e.pid != p
    ensures Owns(Apply(Run(INITIAL, events).value, e).value, p, stamp)
    ensures Apply(Run(INITIAL, events).value, e).value.lock == Some(stamp)
  {
    var w := Run(INITIAL, events).value;
    RunKeeps(INITIAL, events);
    StepKeeps(w, e);
    assert Owns(Apply(w, e).value, p, stamp);
  }

  /**
   When the digest check and the unlink are separate steps, the unlink keeps the invariant exactly
   when no live process owns the lock file by then; in particular when the file is still the one
   that was checked.
   */
  lemma SplitUnlinkSafeIff(w: World, e: Event)
    requires Inv(w) && e.UnlinkVerified? && Apply(w, e).Some?
    ensures Inv(Apply(w, e).value) <==> (w.lock.Some? ==> !Owns(w, w.lock.value.pid, w.lock.value))
    ensures w.lock == Some(w.procs[e.pid].first) ==> Inv(Apply(w, e).value)
  {
    var p := e.pid;
    var u := To(w, p, Clear);
    assert PhaseOk(w, p, w.procs[p]);
    MoveKeeps(w, p, Clear);
    UnlockSafeIff(u);
    assert Unlocked(u) == Apply(w, e).value;
    if w.lock.Some? {
      assert Owns(w, w.lock.value.pid, w.lock.value) <==> Owns(u, w.lock.value.pid, w.lock.value);
    }
  }

  lemma {:induction false} RunAppend(w: World, a: seq<Event>, b: seq<Event>)
    requires Run(w, a).Some?
    ensures Run(w, a + b) == Run(Run(w, a).value, b)
    decreases |a|
  {
    if a == [] {
      assert a + b == b;
    } else {
      assert (a + b)[1..] == a[1..] + b;
      RunAppend(Apply(w, a[0]).value, a[1..], b);
    }
  }

  lemma RunFirst(w: World, e: Event, rest: seq<Event>)
    requires Apply(w, e).Some?
    ensures Run(w, [e] + rest) == Run(Apply(w, e).value, rest)
  {
    assert ([e] + rest)[1..] == rest;
  }

  lemma RunThen(w: World, a: seq<Event>, v: World, e: Event, b: seq<Event>)
    requires Run(w, a) == Some(v) && Apply(v, e).Some?
    ensures Run(w, a + ([e] + b)) == Run(Apply(v, e).value, b)
  {
    RunAppend(w, a, [e] + b);
    RunFirst(v, e, b);
  }

  /** One process takes the lease and keeps it. */
  function Taking(p: Pid): seq<Event> {
    [Draft(p, 0)] + ([LinkLock(p)] + ([DropOwnPending(p)] + []))
  }

  function Taken(w: World, p: Pid): World {
    var x := Stamp(p, 0);
    w.(procs := w.procs[p := Holding(x)], lock := Some(x), pendings := w.pendings + {x} - {x},
       drafted := w.drafted + {x}, linked := w.linked + {x})
  }

  lemma Takes(w: World, p: Pid)
    requires p in w.procs && p in w.alive && w.procs[p] == Clear && w.lock == None && Stamp(p, 0) !in w.drafted
    ensures Run(w, Taking(p)) == Some(Taken(w, p))
  {
    var x := Stamp(p, 0);
    var w1 := w.(procs := w.procs[p := Drafted(x)], pendings := w.pendings + {x}, drafted := w.drafted + {x});
    assert Apply(w, Draft(p, 0)) == Some(w1);
    var w2 := w1.(procs := w.procs[p := Linked(x)], lock := Some(x), linked := w.linked + {x});
    assert w1.procs[p := Linked(x)] == w2.procs;
    assert Apply(w1, LinkLock(p)) == Some(w2);
    assert w2.procs[p := Holding(x)] == Taken(w, p).procs;
    assert Apply(w2, DropOwnPending(p)) == Some(Taken(w, p));
    RunFirst(w, Draft(p, 0), [LinkLock(p)] + ([DropOwnPending(p)] + []));
    RunFirst(w1, LinkLock(p), [DropOwnPending(p)] + []);
    RunFirst(w2, DropOwnPending(p), []);
  }

  /** One process finds a lock file of a dead process and checks its digest. */
  function Checking(p: Pid): seq<Event> {
    [Spawn(p)] + ([Scan(p)] + ([InspectLock(p)] + ([ReadAgain(p)] + ([CheckAlive(p)] + ([Verify(p)] + [])))))
  }

  function Checked(w: World, p: Pid, x: Stamp): World {
    w.(procs := w.procs[p := Verified(x)], alive := w.alive + {p})
  }

  lemma Checks(w: World, p: Pid, x: Stamp)
    requires p !in w.procs && w.lock == Some(x) && x.pid != p && x.pid !in w.alive && w.pendings == {}
    ensures Run(w, Checking(p)) == Some(Checked(w, p, x))
  {
    var here := w.alive + {p};
    var w1 := w.(procs := w.procs[p := Idle], alive := here);
    var w2 := w.(procs := w.procs[p := Scanning({})], alive := here);
    var w3 := w.(procs := w.procs[p := ReadOnce(x)], alive := here);
    assert Apply(w, Spawn(p)) == Some(w1);
    assert w1.procs[p := Scanning({})] == w2.procs && Apply(w1, Scan(p)) == Some(w2);
    assert w2.procs[p := ReadOnce(x)] == w3.procs && Apply(w2, InspectLock(p)) == Some(w3);
    ChecksDigest(w, p, x);
    hide Run;
    var rest := [ReadAgain(p)] + ([CheckAlive(p)] + ([Verify(p)] + []));
    RunFirst(w, Spawn(p), [Scan(p)] + ([InspectLock(p)] + rest));
    RunFirst(w1, Scan(p), [InspectLock(p)] + rest);
    RunFirst(w2, InspectLock(p), rest);
  }

  /** The second half: once the file has been read. */
  lemma ChecksDigest(w: World, p: Pid, x: Stamp)
    requires p !in w.procs && w.lock == Some(x) && x.pid != p && x.pid !in w.alive
    ensures var seen := w.(procs := w.procs[p := ReadOnce(x)], alive := w.alive + {p});
            Run(seen, [ReadAgain(p)] + ([CheckAlive(p)] + ([Verify(p)] + []))) == Some(Checked(w, p, x))
  {
    var here := w.alive + {p};
    var w3 := w.(procs := w.procs[p := ReadOnce(x)], alive := here);
    var w4 := w.(procs := w.procs[p := ReadTwice(x, x)], alive := here);
    var w5 := w.(procs := w.procs[p := Judged(x, x)], alive := here);
    var w6 := Checked(w, p, x);
    assert w3.procs[p := ReadTwice(x, x)] == w4.procs && Apply(w3, ReadAgain(p)) == Some(w4);
    assert w4.procs[p := Judged(x, x)] == w5.procs && Apply(w4, CheckAlive(p)) == Some(w5);
    assert w5.procs[p := Verified(x)] == w6.procs && Apply(w5, Verify(p)) == Some(w6);
    RunFirst(w3, ReadAgain(p), [CheckAlive(p)] + ([Verify(p)] + []));
    RunFirst(w4, CheckAlive(p), [Verify(p)] + []);
    RunFirst(w5, Verify(p), []);
  }

  /** A lock file left by process 1, which died holding it. */
  ghost predicate Stale(w: World) {
    && w.procs.Keys == {1} && w.alive == {} && w.lock == Some(Stamp(1, 0)) && w.pendings == {}
    && w.drafted == {Stamp(1, 0)}
  }

  /**
   2 and 3 both check the stale file. 3 removes it and takes the lease. Then 2, which checked the
   old file, removes the new one and takes the lease too.
   */
  function Race(): seq<Event> {
    Checking(2) + (Checking(3) + ([UnlinkVerified(3)] + (Taking(3) + ([UnlinkVerified(2)] + Taking(2)))))
  }

  /** Without that atomicity the lease is not exclusive: after the race 2 and 3 both hold it. */
  lemma SplitUnlinkRace(w: World)
    requires Stale(w)
    ensures Run(w, Race()).Some?
    ensures Owns(Run(w, Race()).value, 2, Stamp(2, 0)) && Owns(Run(w, Race()).value, 3, Stamp(3, 0))
  {
    var x := Stamp(1, 0);
    var w1 := Checked(w, 2, x);
    var w2 := Checked(w1, 3, x);
    Checks(w, 2, x);
    Checks(w1, 3, x);
    var w3 := Unlocked(To(w2, 3, Clear));
    assert Apply(w2, UnlinkVerified(3)) == Some(w3);
    Takes(w3, 3);
    var w4 := Taken(w3, 3);
    var w5 := Unlocked(To(w4, 2, Clear));
    assert Apply(w4, UnlinkVerified(2)) == Some(w5);
    Takes(w5, 2);
    var rest := [UnlinkVerified(3)] + (Taking(3) + ([UnlinkVerified(2)] + Taking(2)));
    RunAppend(w, Checking(2), Checking(3) + rest);
    RunThen(w1, Checking(3), w2, UnlinkVerified(3), Taking(3) + ([UnlinkVerified(2)] + Taking(2)));
    RunThen(w3, Taking(3), w4, UnlinkVerified(2), Taking(2));
  }

  /** A process that starts alone, takes the lease and dies holding it. */
  function FirstHolder(): seq<Event> {
    [Spawn(1)] + ([Scan(1)] + ([InspectLock(1)] + (Taking(1) + ([Die(1)] + []))))
  }

  /** The stale lock the race starts from is what such a process leaves behind. */
  lemma StaleIsReached()
    ensures Run(INITIAL, FirstHolder()).Some? && Stale(Run(INITIAL, FirstHolder()).value)
  {
    var w1 := To(INITIAL, 1, Idle).(alive := INITIAL.alive + {1});
    var w2 := To(w1, 1, Scanning(INITIAL.pendings));
    var w3 := To(w2, 1, Clear);
    assert Apply(INITIAL, Spawn(1)) == Some(w1);
    assert Apply(w1, Scan(1)) == Some(w2);
    assert Apply(w2, InspectLock(1)) == Some(w3);
    RunFirst(INITIAL, Spawn(1), [Scan(1)] + ([InspectLock(1)] + (Taking(1) + ([Die(1)] + []))));
    RunFirst(w1, Scan(1), [InspectLock(1)] + (Taking(1) + ([Die(1)] + [])));
    RunFirst(w2, InspectLock(1), Taking(1) + ([Die(1)] + []));
    Takes(w3, 1);
    RunThen(w3, Taking(1), Taken(w3, 1), Die(1), []);
  }

  /** The race as one run from the start: two live processes hold the lease at once. */
  lemma RaceFromStart()
    ensures Run(INITIAL, FirstHolder() + Race()).Some?
    ensures var w := Run(INITIAL, FirstHolder() + Race()).value;
            Owns(w, 2, Stamp(2, 0)) && Owns(w, 3, Stamp(3, 0))
  {
    StaleIsReached();
    SplitUnlinkRace(Run(INITIAL, FirstHolder()).value);
    RunAppend(INITIAL, FirstHolder(), Race());
  }

  // ---------------------------------------------------------------- split unlinks under a guard

  /** No live process owns the lock file. */
  ghost predicate Unowned(w: World) {
    w.lock.Some? ==> !Owns(w, w.lock.value.pid, w.lock.value)
  }

  /** Whenever a process unlinks what it checked before, no live process owns the lock file by then. */
  ghost predicate Guarded(w: World, events: seq<Event>)
    decreases |events|
  {
    events != [] && Apply(w, events[0]).Some? ==>
      (events[0].UnlinkVerified? ==> Unowned(w)) && Guarded(Apply(w, events[0]).value, events[1..])
  }

  lemma {:induction false} GuardedKeeps(w: World, events: seq<Event>)
    requires Inv(w) && Guarded(w, events) && Run(w, events).Some?
    ensures Inv(Run(w, events).value)
    decreases |events|
  {
    if events != [] {
      if events[0].UnlinkVerified? {
        SplitUnlinkSafeIff(w, events[0]);
      } else {
        StepKeeps(w, events[0]);
      }
      GuardedKeeps(Apply(w, events[0]).value, events[1..]);
    }
  }

  /** Exclusion over every run with split unlinks, as long as none of them meets a live owner's file. */
  lemma GuardedExclusion(events: seq<Event>, p: Pid, q: Pid, a: Stamp, b: Stamp)
    requires Guarded(INITIAL, events) && Run(INITIAL, events).Some?
    requires Owns(Run(INITIAL, events).value, p, a) && Owns(Run(INITIAL, events).value, q, b)
    ensures p == q && a == b && Run(INITIAL, events).value.lock == Some(a)
  {
    GuardedKeeps(INITIAL, events);
  }

  /** The first unguarded unlink of a run leaves a live owner without its lock file. */
  lemma UnguardedSteals(events: seq<Event>, e: Event)
    requires Guarded(INITIAL, events) && Run(INITIAL, events).Some? && e.UnlinkVerified?
    requires Apply(Run(INITIAL, events).value, e).Some? && !Unowned(Run(INITIAL, events).value)
    ensures var w, v := Run(INITIAL, events).value, Apply(Run(INITIAL, events).value, e).value;
            w.lock.Some? && Owns(v, w.lock.value.pid, w.lock.value) && v.lock == None
  {
    var w := Run(INITIAL, events).value;
    GuardedKeeps(INITIAL, events);
    assert PhaseOk(w, e.pid, w.procs[e.pid]);
  }
}
