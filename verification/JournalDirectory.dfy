/**
 Appending to the migration journal and recovering it, step by step, with a crash before any effect.
 */
module JournalDirectory {
  import opened Json
  import opened RecordChain
  import opened JournalStore
  import opened JournalFrontier

  // ---------------------------------------------------------------- the directory

  class Directory {
    const codec: Codec
    const userDataPath: string
    var present: bool
    /** What a running process sees, and what a power loss cannot undo. */
    var files: map<Name, string>
    var durable: map<Name, string>
    /** The names of files whose text was written and never synced. */
    var loose: set<Name>
    /** How many effects the process performs before it dies. */
    var fuel: nat

    constructor (codec: Codec, userDataPath: string, fuel: nat)
      ensures this.codec == codec && this.userDataPath == userDataPath && this.fuel == fuel
      ensures !present && files == map[] && durable == map[] && loose == {}
    {
      this.codec := codec;
      this.userDataPath := userDataPath;
      this.fuel := fuel;
      present, files, durable, loose := false, map[], map[], {};
    }

    /** A missing root holds nothing, and only files that are there are loose. */
    ghost predicate Placed()
      reads `present, `files, `durable, `loose
    {
      && (present || (files == map[] && durable == map[] && loose == {}))
      && Backed(files, durable, loose)
    }

    method Spend() returns (alive: bool)
      modifies `fuel
      ensures alive <==> old(fuel) > 0
      ensures fuel == if alive then old(fuel) - 1 else 0
    {
      alive := fuel > 0;
      if alive {
        fuel := fuel - 1;
      }
    }

    /** Sync the directory: a name that is gone cannot come back, but texts are not synced by it. */
    method Sync() returns (alive: bool)
      modifies `fuel, `durable, `loose
      ensures alive ==> durable == files && loose == set n | n in old(loose) && n in files
      ensures !alive ==> durable == old(durable) && loose == old(loose)
      ensures alive <==> old(fuel) > 0
      ensures fuel == if alive then old(fuel) - 1 else 0
    {
      alive := Spend();
      if alive {
        durable := files;
        loose := set n | n in loose && n in files;
      }
    }

    method Link(from: Name, to: Name) returns (alive: bool)
      requires from in files && to !in files
      modifies `fuel, `files, `loose
      ensures files == if alive then old(files)[to := old(files)[from]] else old(files)
      ensures loose == if alive && from in old(loose) then old(loose) + {to} else old(loose)
      ensures alive <==> old(fuel) > 0
      ensures fuel == if alive then old(fuel) - 1 else 0
    {
      alive := Spend();
      if alive {
        files := files[to := files[from]];
        loose := if from in loose then loose + {to} else loose;
      }
    }

    /** A file that neither a process sees nor a power loss can bring back is gone. */
    method Unlink(n: Name) returns (alive: bool)
      requires n in files
      modifies `fuel, `files, `loose
      ensures files == if alive then old(files) - {n} else old(files)
      ensures loose == if alive && n !in durable then old(loose) - {n} else old(loose)
      ensures alive <==> old(fuel) > 0
      ensures fuel == if alive then old(fuel) - 1 else 0
    {
      alive := Spend();
      if alive {
        files := files - {n};
        loose := if n in durable then loose else loose - {n};
      }
    }

    /**
     Create a file, write it and sync it. A death in the middle of the write leaves some prefix of the text,
     and one before the sync leaves the text unsynced.
     */
    method Write(n: Name, raw: string) returns (alive: bool, ghost written: string)
      requires n !in files
      modifies `fuel, `files, `loose
      ensures written <= raw
      ensures alive ==> files == old(files)[n := raw] && loose == old(loose) - {n}
      ensures !alive ==> || (old(fuel) == 0 && files == old(files) && loose == old(loose))
                         || (0 < old(fuel) && files == old(files)[n := written] && loose == old(loose) + {n})
      ensures old(fuel) == 2 ==> written == raw
      ensures alive <==> old(fuel) >= WRITE_EFFECTS
      ensures fuel == if alive then old(fuel) - WRITE_EFFECTS else 0
    {
      written := raw;
      alive := Spend();
      if !alive {
        return;
      }
      files, loose := files[n := ""], loose + {n};
      alive := Spend();
      if !alive {
        var tear: nat :| tear <= |raw|;
        files := files[n := raw[..tear]];
        written := raw[..tear];
        return;
      }
      files := files[n := raw];
      alive := Spend();
      if alive {
        loose := loose - {n};
      }
    }

    /** `unlinkExactRegularFile`, whose digest is that of the text just read. */
    method UnlinkExact(n: Name) returns (alive: bool)
      requires n in files
      modifies `fuel, `files, `durable, `loose
      ensures alive ==> files == old(files) - {n} && durable == files && loose == set m | m in old(loose) && m in files
      ensures !alive ==> durable == old(durable) && (files == old(files) || files == old(files) - {n})
      ensures !alive ==> loose == if files == old(files) || n in durable then old(loose) else old(loose) - {n}
      ensures old(fuel) == 1 ==> files == old(files) - {n}
      ensures alive <==> old(fuel) >= 2
      ensures fuel == if alive then old(fuel) - 2 else 0
    {
      alive := Unlink(n);
      if alive {
        alive := Sync();
      }
    }

    /** Remove the empty root and sync its parent; its entries go with it. */
    method RemoveRoot() returns (alive: bool)
      requires files == map[]
      modifies `fuel, `present, `durable, `loose
      ensures alive ==> !present && durable == map[] && loose == {}
      ensures || (present == old(present) && durable == old(durable) && loose == old(loose))
              || (!present && durable == map[] && loose == {})
      ensures alive <==> old(fuel) >= 2
      ensures fuel == if alive then old(fuel) - 2 else 0
    {
      alive := Spend();
      if alive {
        present, durable, loose := false, map[], {};
        alive := Spend();
      }
    }

    function Cut(left: map<Name, string>, n: Name, was: string): string
      reads `loose
    {
      if n in loose && n in left && left[n] <= was then left[n] else was
    }

    /** What is left after the power goes; everything left is on disk. */
    method PowerLoss(fuel': nat)
      modifies `files, `durable, `loose, `fuel
      ensures Survives(old(files), old(durable), old(loose), files) && durable == files && loose == {} && fuel == fuel'
    {
      var lost: set<Name> := *;
      var back: set<Name> := *;
      var left: map<Name, string> := *;
      var kept := map n | n in files && (n in durable || n !in lost) :: Cut(left, n, files[n]);
      files := (map n | n in durable && n !in files && n in back :: Cut(left, n, durable[n])) + kept;
      durable, loose, fuel := files, {}, fuel';
    }

    method LoadCanonical() returns (ok: bool, es: seq<Entry>, ghost raws: seq<string>)
      ensures ok ==> ReadBack(codec, files, es, raws)
      ensures !ok ==> exists n :: n in files && n.Canonical? &&
                        (codec.parse(files[n]) == None || CanonicalOf(codec.parse(files[n]).value) != n)
    {
      var rest := set n | n in files && n.Canonical? && Known(n);
      es, raws := [], [];
      while rest != {}
        invariant forall n :: n in rest ==> n in files && n.Canonical?
        invariant Reading(codec, files, rest, es, raws)
        decreases rest
      {
        var n :| n in rest;
        match codec.parse(files[n]) {
          case None => return false, es, raws;
          case Some(record) =>
            if CanonicalOf(record) != n {
              return false, es, raws;
            }
            var k := Place(es, record.sequence);
            ReadOne(codec, files, rest, es, raws, n, k);
            es, raws := InsertAt(es, k, Entry(codec.sha(files[n]), record)), InsertAt(raws, k, files[n]);
        }
        rest := rest - {n};
      }
      return true, es, raws;
    }

    // ------------------------------------------------------------ recovery

    /** What an append and its recovery can leave behind when processes die, power lost or not. */
    ghost predicate InFlight(raws: seq<string>, r: Record, text: string)
      reads `files, `durable
    {
      && Both(raws, r, text) && |raws| < 1000
      && (Decided(codec, durable, r, text) ==> Decided(codec, files, r, text))
    }

    ghost predicate Both(raws: seq<string>, r: Record, text: string)
      reads `files, `durable
    {
      Frontier(codec, files, raws, r, text) && Frontier(codec, durable, raws, r, text)
    }

    /** The directory after part of a turn, or all of it. */
    ghost predicate WithinTurn(p: Name, was: map<Name, string>, before: map<Name, string>, now: map<Name, string>,
                               r: Record, text: string)
    {
      now == before || now == Published(codec, was, r, text, p) || now == Published(codec, was, r, text, p) - {p}
    }

    /** What a turn on pending file `p` does to what an append left behind. */
    twostate predicate Turned(p: Name, raws: seq<string>, r: Record, text: string, new o: Outcome<Turn>)
      reads `files, `durable, `loose
    {
      old(InFlight(raws, r, text)) ==>
        && WithinTurn(p, old(files), old(files), files, r, text)
        && WithinTurn(p, old(files), old(durable), durable, r, text)
        && !o.Blocked?
        && (o == Done(Abandoned) ==> raws == [] && codec.parse(text) == None)
        && (o == Done(Continue) && raws == [] ==> codec.parse(text).Some?)
        && (old(durable) == old(files) && Decided(codec, old(files), r, text) ==> Durably(files, durable, r))
        && (old(Firm(codec, loose, r, text)) ==> Firm(codec, loose, r, text))
        && (old(Soft(files, loose, r)) && codec.parse(text).Some? ==> Soft(files, loose, r))
    }

    /** A torn pending file whose number is not the next one. */
    ghost predicate StuckAt(p: Name)
      reads `files
    {
      exists all :: NotNext(codec, files, p, all)
    }

    /** The only pending name is such a one. */
    ghost predicate Stuck()
      reads `files
    {
      exists p :: PendingNames(files) == {p} && StuckAt(p)
    }

    twostate predicate Unmoved()
      reads `files, `durable, `loose, `present
    {
      files == old(files) && durable == old(durable) && loose == old(loose) && present == old(present)
    }

    /** Unlink an unpublished pending file; with no record at all, remove the empty root too. */
    method Discard(p: Name, existing: seq<Entry>) returns (o: Outcome<Turn>)
      requires p in files && p.Pending?
      modifies `files, `durable, `loose, `fuel, `present
      ensures old(Placed()) ==> Placed()
      ensures files == old(files) || files == old(files) - {p}
      ensures durable == old(durable) || durable == old(files) - {p}
      ensures loose <= old(loose)
      ensures o.Done? || o.Blocked? ==> files == old(files) - {p} && durable == files
      ensures o == Done(Abandoned) ==> files == map[] && existing == [] && !present
      ensures o == Done(Continue) ==> present == old(present) && existing != []
      ensures o.Blocked? ==> files != map[] && existing == []
      ensures if o.Crashed? then fuel == 0 && old(fuel) < TURN_EFFECTS else old(fuel) <= fuel + TURN_EFFECTS
    {
      var alive := UnlinkExact(p);
      if !alive {
        return Crashed;
      }
      if |existing| > 0 {
        return Done(Continue);
      }
      if files != map[] {
        return Blocked;
      }
      alive := RemoveRoot();
      return if alive then Done(Abandoned) else Crashed;
    }

    /** Link a whole pending record under its canonical name, sync, unlink the pending name, sync. */
    method Publish(p: Name, canonical: Name) returns (alive: bool)
      requires p in files && p.Pending? && canonical.Canonical? && canonical !in files
      modifies `files, `durable, `loose, `fuel
      ensures var linked := old(files)[canonical := old(files)[p]];
              && (files == old(files) || files == linked || files == linked - {p})
              && (durable == old(durable) || durable == linked || durable == linked - {p})
              && (alive ==> files == linked - {p} && durable == files)
      ensures loose <= if p in old(loose) then old(loose) + {canonical} else old(loose)
      ensures p in old(loose) ==> if canonical in files then canonical in loose else p in files && p in loose
      ensures p in old(durable) ==> (p in files && p in durable) || (canonical in files && canonical in durable)
      ensures old(fuel) == 1 ==> files == old(files)[canonical := old(files)[p]] && durable == old(durable)
      ensures old(Backed(files, durable, loose)) ==> Backed(files, durable, loose)
      ensures alive <==> old(fuel) >= TURN_EFFECTS
      ensures fuel == if alive then old(fuel) - TURN_EFFECTS else 0
    {
      alive := Link(p, canonical);
      if !alive {
        return;
      }
      alive := Sync();
      if !alive {
        return;
      }
      alive := Unlink(p);
      if !alive {
        return;
      }
      alive := Sync();
    }

    /** The canonical files, read for a turn. */
    method ReadExisting(ghost raws: seq<string>, ghost r: Record, ghost text: string)
      returns (ok: bool, existing: seq<Entry>, ghost read: seq<string>)
      ensures ok ==> ReadBack(codec, files, existing, read)
      ensures ok ==> forall all :: Exactly(codec, files, all) && |all| <= 1000 ==> |existing| == |all|
      ensures InFlight(raws, r, text) ==> ok && read == if CanonicalOf(r) in files then raws + [text] else raws
    {
      ok, existing, read := LoadCanonical();
      if InFlight(raws, r, text) {
        forall n | n in files && n.Canonical?
          ensures codec.parse(files[n]).Some? && CanonicalOf(codec.parse(files[n]).value) == n
        {
          FrontierReads(codec, files, raws, r, text, n);
        }
        if ok {
          ReadFrontier(codec, files, raws, r, text, existing, read);
        }
      }
      if ok {
        forall all | Exactly(codec, files, all) && |all| <= 1000 ensures |existing| == |all| {
          ReadBackExactly(codec, files, existing, read, all);
        }
      }
    }

    /** The checks before a torn pending file is unlinked, on its name alone. */
    method MayDiscard(p: Name, existing: seq<Entry>) returns (ok: bool)
      requires p.Pending?
      ensures ok <==> Discardable(codec, p, existing)
    {
      if p.sequence != |existing| {
        return false;
      }
      if |existing| == 0 {
        return p.state == Planned;
      }
      if p.transactionId != existing[0].record.transactionId {
        return false;
      }
      var valid := ValidateRecordChain(existing, codec.requestSha);
      return valid.Some?;
    }

    /** The checks before a whole pending record is published or discarded. */
    method MayPublish(record: Record, existing: seq<Entry>) returns (ok: bool)
      ensures ok <==> Publishable(codec, record, existing)
    {
      if record.sequence != |existing| {
        return false;
      }
      if |existing| == 0 {
        return record.previous == "" && record.state == Planned;
      }
      if record.previous != existing[|existing| - 1].sha {
        return false;
      }
      var valid := ValidateRecordChain(existing, codec.requestSha);
      return valid.Some?;
    }

    /** Whether a torn pending file may be unlinked. */
    method DecideTorn(p: Name, ghost raws: seq<string>, ghost r: Record, ghost text: string)
      returns (ok: bool, existing: seq<Entry>)
      requires Lawful(codec) && p in files && p.Pending? && codec.parse(files[p]) == None
      ensures StuckAt(p) ==> !ok
      ensures InFlight(raws, r, text) ==>
                && ok && p == PendingOf(r) && codec.parse(text) == None
                && (existing == [] <==> raws == []) && (raws == [] ==> files - {p} == map[])
    {
      hide Frontier;
      ghost var read;
      ok, existing, read := ReadExisting(raws, r, text);
      if InFlight(raws, r, text) {
        TornIsDiscardable(codec, files, raws, r, text, p);
      }
      if ok {
        ok := MayDiscard(p, existing);
      }
    }

    /** What becomes of a whole pending record that is not linked yet. */
    method DecideWhole(p: Name, record: Record, ghost raws: seq<string>, ghost r: Record, ghost text: string)
      returns (verdict: Verdict, existing: seq<Entry>)
      requires Lawful(codec) && p in files && p == PendingOf(record)
      requires codec.parse(files[p]) == Some(record) && CanonicalOf(record) !in files
      ensures InFlight(raws, r, text) ==>
                verdict == PublishIt && p == PendingOf(r) && record == r && files[p] == text
                    && codec.parse(text) == Some(r)
    {
      hide Frontier;
      var ok;
      ghost var read;
      ok, existing, read := ReadExisting(raws, r, text);
      if InFlight(raws, r, text) {
        WholeIsPublishable(codec, files, raws, r, text, p, record);
      }
      if ok {
        ok := MayPublish(record, existing);
      }
      if !ok {
        return Refuse, existing;
      }
      var extended := ValidateRecordChain(existing + [Entry(codec.sha(files[p]), record)], codec.requestSha);
      return if extended.None? then DropIt else PublishIt, existing;
    }

    /** The turn for a pending file that does not parse. */
    method DiscardTorn(p: Name, ghost raws: seq<string>, ghost r: Record, ghost text: string) returns (o: Outcome<Turn>)
      requires Lawful(codec) && p in files && p.Pending? && codec.parse(files[p]) == None
      modifies `files, `durable, `loose, `fuel, `present
      ensures old(Placed()) ==> Placed()
      ensures files == old(files) || files == old(files) - {p}
      ensures durable == old(durable) || durable == old(files) - {p}
      ensures o.Done? ==> files == old(files) - {p} && durable == files
      ensures o == Done(Abandoned) ==> files == map[] && !present
      ensures o == Done(Continue) ==> present == old(present)
      ensures old(StuckAt(p)) ==> o.Blocked? && Unmoved()
      ensures Turned(p, raws, r, text, o) && loose <= old(loose)
      ensures if o.Crashed? then fuel == 0 && old(fuel) < TURN_EFFECTS else old(fuel) <= fuel + TURN_EFFECTS
    {
      hide Frontier;
      var ok, existing := DecideTorn(p, raws, r, text);
      if !ok {
        return Blocked;
      }
      o := Discard(p, existing);
    }

    /** The turn for a whole pending record whose canonical name is already there. */
    method DropDuplicate(p: Name, record: Record, ghost raws: seq<string>, ghost r: Record, ghost text: string)
      returns (o: Outcome<Turn>)
      requires Lawful(codec) && p in files && p.Pending?
      requires codec.parse(files[p]) == Some(record) && CanonicalOf(record) in files
      modifies `files, `durable, `loose, `fuel
      ensures files == old(files) || files == old(files) - {p}
      ensures durable == old(durable) || durable == old(files) - {p}
      ensures old(fuel) == 1 && !o.Blocked? ==> files == old(files) - {p} && durable == old(durable)
      ensures o.Done? ==> o.value == Continue && files == old(files) - {p} && durable == files
      ensures old(Backed(files, durable, loose)) ==> Backed(files, durable, loose)
      ensures Turned(p, raws, r, text, o) && loose <= old(loose)
      ensures if o.Crashed? then fuel == 0 && old(fuel) < TURN_EFFECTS else old(fuel) <= fuel + TURN_EFFECTS
    {
      hide Frontier;
      if InFlight(raws, r, text) {
        DuplicateFacts(codec, files, raws, r, text, p, record);
      }
      var canonical := files[CanonicalOf(record)];
      if codec.parse(canonical) == None || codec.sha(canonical) != codec.sha(files[p]) {
        return Blocked;
      }
      var alive := UnlinkExact(p);
      return if alive then Done(Continue) else Crashed;
    }

    /** The turn for a whole pending record that is not yet canonical: publish it, or discard it. */
    method PublishOrDiscard(p: Name, record: Record, ghost raws: seq<string>, ghost r: Record, ghost text: string)
      returns (o: Outcome<Turn>)
      requires Lawful(codec) && p in files && p == PendingOf(record)
      requires codec.parse(files[p]) == Some(record) && CanonicalOf(record) !in files
      modifies `files, `durable, `loose, `fuel, `present
      ensures old(Placed()) ==> Placed()
      ensures var linked := old(files)[CanonicalOf(record) := old(files)[p]];
              && (files == old(files) || files == old(files) - {p} || files == linked || files == linked - {p})
              && (durable == old(durable) || durable == old(files) - {p} || durable == linked
                   || durable == linked - {p})
              && (o.Done? ==> files == old(files) - {p} || files == linked - {p})
      ensures o.Done? ==> durable == files
      ensures o == Done(Abandoned) ==> files == map[] && !present
      ensures o == Done(Continue) ==> present == old(present)
      ensures Turned(p, raws, r, text, o)
      ensures if o.Crashed? then fuel == 0 && old(fuel) < TURN_EFFECTS else old(fuel) <= fuel + TURN_EFFECTS
    {
      hide Frontier;
      var verdict, existing := DecideWhole(p, record, raws, r, text);
      match verdict {
        case Refuse => o := Blocked;
        case DropIt => o := Discard(p, existing);
        case PublishIt =>
          var alive := Publish(p, CanonicalOf(record));
          o := if alive then Done(Continue) else Crashed;
      }
    }

    /** What a turn does, by what the pending file holds. */
    method Handle(p: Name, ghost raws: seq<string>, ghost r: Record, ghost text: string) returns (o: Outcome<Turn>)
      requires Lawful(codec) && p in files && p.Pending?
      modifies `files, `durable, `loose, `fuel, `present
      ensures old(Placed()) ==> Placed()
      ensures CanonicalKept(old(files), files)
      ensures o.Done? ==> durable == files && PendingNames(files) == PendingNames(old(files)) - {p}
      ensures o == Done(Abandoned) ==> files == map[] && !present
      ensures o == Done(Continue) ==> present == old(present)
      ensures old(StuckAt(p)) ==> o.Blocked? && Unmoved()
      ensures Turned(p, raws, r, text, o)
      ensures if o.Crashed? then fuel == 0 && old(fuel) < TURN_EFFECTS else old(fuel) <= fuel + TURN_EFFECTS
    {
      hide Frontier;
      ghost var before := files;
      match codec.parse(files[p]) {
        case None =>
          PendingNamesAfter(before, p, Canonical(0, Planned), "");
          o := DiscardTorn(p, raws, r, text);
        case Some(record) =>
          if p != PendingOf(record) {
            if InFlight(raws, r, text) {
              PendingIs(codec, files, raws, r, text, p);
            }
            return Blocked;
          }
          PendingNamesAfter(before, p, CanonicalOf(record), files[p]);
          if CanonicalOf(record) in files {
            o := DropDuplicate(p, record, raws, r, text);
          } else {
            o := PublishOrDiscard(p, record, raws, r, text);
          }
      }
    }

    /** One turn of the recovery loop, on one pending name. */
    method Turn(p: Name, ghost raws: seq<string>, ghost r: Record, ghost text: string) returns (o: Outcome<Turn>)
      requires Lawful(codec) && p in files && p.Pending?
      modifies `files, `durable, `loose, `fuel, `present
      ensures old(Placed()) ==> Placed()
      ensures CanonicalKept(old(files), files)
      ensures o.Done? ==> durable == files && PendingNames(files) == PendingNames(old(files)) - {p}
      ensures o == Done(Abandoned) ==> files == map[] && !present
      ensures o == Done(Continue) ==> present == old(present)
      ensures old(StuckAt(p)) ==> o.Blocked? && Unmoved()
      ensures old(InFlight(raws, r, text)) ==>
                && InFlight(raws, r, text)
                && !o.Blocked?
                && (o == Done(Abandoned) ==> raws == [] && !Decided(codec, old(files), r, text))
                && (o == Done(Continue) && raws == [] ==> Decided(codec, old(files), r, text))
                && (Decided(codec, files, r, text) <==> Decided(codec, old(files), r, text))
                && (old(durable) == old(files) && Decided(codec, old(files), r, text) ==> Durably(files, durable, r))
                && (old(Firm(codec, loose, r, text)) ==> Firm(codec, loose, r, text))
                && (old(Soft(files, loose, r)) && codec.parse(text).Some? ==> Soft(files, loose, r))
      ensures if o.Crashed? then fuel == 0 && old(fuel) < TURN_EFFECTS else old(fuel) <= fuel + TURN_EFFECTS
    {
      hide Frontier;
      if InFlight(raws, r, text) {
        PendingIs(codec, files, raws, r, text, p);
        PublishedIsFrontier(codec, files, raws, r, text, p);
      }
      o := Handle(p, raws, r, text);
    }

    lemma FlightFacts(raws: seq<string>, r: Record, text: string)
      requires InFlight(raws, r, text)
      ensures UnknownNames(files) == {}
      ensures PendingNames(files) == {} && raws == [] && files != map[] ==> Decided(codec, files, r, text)
      ensures durable == files && Decided(codec, files, r, text) ==> Durably(files, durable, r)
    {
      FrontierNames(codec, files, raws, r, text);
      FrontierLayout(codec, files, raws, r, text);
      if PendingNames(files) == {} && files != map[] {
        var n :| n in files;
        assert n !in PendingNames(files);
      }
    }

    /** `reconcilePendingRecords`: true when the journal is ready, false when its root is gone. */
    method Reconcile(ghost raws: seq<string>, ghost r: Record, ghost text: string) returns (o: Outcome<bool>)
      requires Lawful(codec)
      modifies `files, `durable, `loose, `fuel, `present
      ensures old(Placed()) ==> Placed()
      ensures CanonicalKept(old(files), files)
      ensures UnknownNames(old(files)) != {} ==> o.Blocked? && files == old(files)
      ensures o.Done? ==> forall n :: n in files ==> n.Canonical? && Known(n)
      ensures o.Done? && PendingNames(old(files)) != {} ==> durable == files
      ensures o == Done(true) ==> present == old(present)
      ensures old(Stuck()) ==> o.Blocked? && Unmoved()
      ensures PendingNames(old(files)) == {} ==> Unmoved()
      ensures o == Done(false) ==> files == map[] && !present
      ensures old(InFlight(raws, r, text)) ==>
                && InFlight(raws, r, text)
                && !o.Blocked?
                && (o == Done(false) ==> raws == [] && !Decided(codec, old(files), r, text))
                && (o == Done(true) && raws == [] && old(files) != map[] ==> Decided(codec, old(files), r, text))
                && (Decided(codec, files, r, text) <==> Decided(codec, old(files), r, text))
                && (old(durable) == old(files) && Decided(codec, old(files), r, text) ==> Durably(files, durable, r))
                && (old(Firm(codec, loose, r, text)) ==> Firm(codec, loose, r, text))
                && (old(Soft(files, loose, r)) && codec.parse(text).Some? ==> Soft(files, loose, r))
      ensures o.Crashed? ==> fuel == 0 && old(fuel) < TURN_EFFECTS * |PendingNames(old(files))|
    {
      hide InFlight, Frontier, Decided, Durably, Firm, Soft, StuckAt, Backed;
      ghost var frontier := InFlight(raws, r, text);
      ghost var decided := Decided(codec, files, r, text);
      while true
        invariant durable == files || (files == old(files) && durable == old(durable))
        invariant PendingNames(old(files)) == {} ==> Unmoved()
        invariant present == old(present) && (old(Placed()) ==> Placed())
        invariant CanonicalKept(old(files), files)
        invariant UnknownNames(old(files)) != {} ==> files == old(files)
        invariant frontier ==> InFlight(raws, r, text) && (Decided(codec, files, r, text) <==> decided)
        invariant frontier && raws == [] && !decided ==> files == old(files)
        invariant frontier && old(Firm(codec, loose, r, text)) ==> Firm(codec, loose, r, text)
        invariant frontier && old(Soft(files, loose, r)) && codec.parse(text).Some? ==> Soft(files, loose, r)
        invariant old(Stuck()) ==> Unmoved()
        invariant old(fuel) + TURN_EFFECTS * |PendingNames(files)| <= fuel + TURN_EFFECTS * |PendingNames(old(files))|
        decreases PendingNames(files)
      {
        if UnknownNames(files) != {} {
          if frontier {
            FlightFacts(raws, r, text);
          }
          return Blocked;
        }
        if PendingNames(files) == {} {
          forall n | n in files ensures n.Canonical? && Known(n) {
            assert n !in UnknownNames(files) && n !in PendingNames(files);
          }
          if frontier {
            FlightFacts(raws, r, text);
          }
          return Done(true);
        }
        var p :| p in PendingNames(files);
        var turn := Turn(p, raws, r, text);
        match turn {
          case Done(Continue) =>
          case Done(Abandoned) => return Done(false);
          case Blocked => return Blocked;
          case Crashed => return Crashed;
        }
      }
    }

    // ------------------------------------------------------------ loading

    /** The plan that the next record belongs to is the plan of this directory. */
    ghost predicate ForPath(raws: seq<string>, r: Record)
      requires Appendable(codec, raws, r)
    {
      (Entries(codec, raws) + [Entry("", r)])[0].record.payload.plan.userDataPath == userDataPath
    }

    /** What a load does once no pending name is left. */
    method ReadReconciled(ghost before: map<Name, string>, ghost raws: seq<string>, ghost r: Record, ghost text: string)
      returns (o: Outcome<Loaded>, ghost found: seq<string>)
      requires forall n :: n in files ==> n.Canonical? && Known(n)
      ensures !o.Crashed?
      ensures o.Done? ==>
                && Clean(codec, files, found) && found != [] && o.value.records == Entries(codec, found)
                && o.value.records[0].record.payload == PlanPayload(o.value.plan)
                && o.value.plan.userDataPath == userDataPath
      ensures Frontier(codec, files, raws, r, text) && |raws| < 1000 && ForPath(raws, r)
              && (Decided(codec, files, r, text) <==> Decided(codec, before, r, text))
              && Recovered(codec, before, raws, r, text) != [] ==>
                o.Done? && found == Recovered(codec, before, raws, r, text)
    {
      found := [];
      var ok, es, read := LoadCanonical();
      if Frontier(codec, files, raws, r, text) && |raws| < 1000 && ForPath(raws, r)
         && (Decided(codec, files, r, text) <==> Decided(codec, before, r, text))
         && Recovered(codec, before, raws, r, text) != []
      {
        ReadRecovered(codec, before, files, raws, r, text, ok, es, read);
      }
      if !ok {
        return Blocked, found;
      }
      var plan := ValidateRecordChain(es, codec.requestSha);
      if plan.None? {
        return Blocked, found;
      }
      ReadBackAccepted(codec, files, es, read);
      if plan.value.userDataPath != userDataPath {
        return Blocked, found;
      }
      return Done(Loaded(plan.value, es)), read;
    }

    static lemma EmptyIsClean(c: Codec)
      ensures Clean(c, map[], [])
    {}

    lemma EmptyFlight(raws: seq<string>, r: Record, text: string)
      requires InFlight(raws, r, text) && files == map[]
      ensures Frontier(codec, files, raws, r, text) && raws == [] && !Decided(codec, files, r, text)
    {
      if raws != [] {
        NonEmptyFrontier(codec, files, raws, r, text);
      }
    }

    lemma RootRemoved(raws: seq<string>, r: Record, text: string)
      requires files == durable == map[] && Frontier(codec, files, raws, r, text) && |raws| < 1000
      ensures InFlight(raws, r, text)
    {}

    /** What a load returns of the texts it has found. */
    ghost predicate Returned(value: Option<Loaded>, found: seq<string>) {
      && Reads(codec, found)
      && (value.None? <==> found == [])
      && (value.Some? ==>
            && value.value.records == Entries(codec, found)
            && value.value.records[0].record.payload == PlanPayload(value.value.plan)
            && value.value.plan.userDataPath == userDataPath)
    }

    /** What a load does to what an append left behind. */
    twostate predicate LoadKeeps(raws: seq<string>, r: Record, text: string, new o: Outcome<Option<Loaded>>,
                                 found: seq<string>)
      reads `files, `durable, `loose
    {
      old(InFlight(raws, r, text)) && ForPath(raws, r) ==>
        && InFlight(raws, r, text)
        && !o.Blocked?
        && (o.Done? ==> found == Recovered(codec, old(files), raws, r, text))
        && (Decided(codec, files, r, text) <==> Decided(codec, old(files), r, text))
        && (old(durable) == old(files) && Decided(codec, old(files), r, text) ==> Durably(files, durable, r))
        && (old(Firm(codec, loose, r, text)) ==> Firm(codec, loose, r, text))
        && (old(Soft(files, loose, r)) && codec.parse(text).Some? ==> Soft(files, loose, r))
    }

    /** The rest of a load, from a directory that recovery has left to be read. */
    method LoadReconciled(ghost before: map<Name, string>, ghost raws: seq<string>, ghost r: Record, ghost text: string)
      returns (o: Outcome<Option<Loaded>>, ghost found: seq<string>)
      requires forall n :: n in files ==> n.Canonical? && Known(n)
      ensures !o.Crashed? && (o.Done? ==> Clean(codec, files, found) && Returned(o.value, found))
      ensures InFlight(raws, r, text) && ForPath(raws, r)
              && (Decided(codec, files, r, text) <==> Decided(codec, before, r, text))
              && (raws != [] || Decided(codec, before, r, text)) ==>
                o.Done? && found == Recovered(codec, before, raws, r, text)
    {
      hide Frontier;
      var loaded;
      loaded, found := ReadReconciled(before, raws, r, text);
      o := if loaded.Done? then Done(Some(loaded.value)) else Blocked;
    }

    /** A load of a root that is there and not empty. */
    method LoadRoot(ghost raws: seq<string>, ghost r: Record, ghost text: string)
      returns (o: Outcome<Option<Loaded>>, ghost found: seq<string>)
      requires Lawful(codec) && Placed() && present && files != map[]
      modifies `files, `durable, `loose, `fuel, `present
      ensures Placed() && CanonicalKept(old(files), files)
      ensures UnknownNames(old(files)) != {} ==> o.Blocked? && files == old(files)
      ensures o.Done? ==> Clean(codec, files, found)
      ensures o.Done? && PendingNames(old(files)) != {} ==> durable == files
      ensures old(Stuck()) ==> o.Blocked? && Unmoved()
      ensures PendingNames(old(files)) == {} ==> Unmoved()
      ensures o.Done? ==> Returned(o.value, found)
      ensures LoadKeeps(raws, r, text, o, found)
      ensures o.Crashed? ==> fuel == 0 && old(fuel) < EffectsToLoad(old(files))
    {
      hide InFlight, Frontier, Firm, Soft, NotNext, Durably, Clean, Backed, CanonicalKept, StuckAt;
      ghost var before := files;
      found := [];
      EmptyIsClean(codec);
      var ready := Reconcile(raws, r, text);
      match ready {
        case Blocked => return Blocked, found;
        case Crashed => return Crashed, found;
        case Done(false) => return Done(None), found;
        case Done(true) =>
      }
      o, found := LoadReconciled(before, raws, r, text);
    }

    /** `loadLegacyMigrationJournal` with recovery allowed; `found` are the texts it read. */
    method Load(ghost raws: seq<string>, ghost r: Record, ghost text: string)
      returns (o: Outcome<Option<Loaded>>, ghost found: seq<string>)
      requires Lawful(codec) && Placed()
      modifies `files, `durable, `loose, `fuel, `present
      ensures Placed() && CanonicalKept(old(files), files)
      ensures UnknownNames(old(files)) != {} ==> o.Blocked? && files == old(files)
      ensures o.Done? ==> Clean(codec, files, found)
      ensures o.Done? && (PendingNames(old(files)) != {} || old(files) == map[]) ==> durable == files
      ensures PendingNames(old(files)) == {} && old(files) != map[] ==> Unmoved()
      ensures old(Refusing(codec, files)) ==> o.Blocked? && Unmoved()
      ensures o.Done? ==> Returned(o.value, found)
      ensures LoadKeeps(raws, r, text, o, found)
      ensures o.Crashed? ==> fuel == 0 && old(fuel) < EffectsToLoad(old(files))
    {
      ghost var frontier := InFlight(raws, r, text) && ForPath(raws, r);
      found := [];
      EmptyIsClean(codec);
      if present && files != map[] {
        ghost var unlisted, none := Unlisted(codec, files), PendingNames(files) == {};
        hide Frontier, InFlight, LoadKeeps, Returned, Clean, CanonicalKept, Unlisted, NotNext, Lawful;
        o, found := LoadRoot(raws, r, text);
        if unlisted && none && o.Done? {
          ListedIsNotUnlisted(codec, files, found);
        }
        return;
      }
      hide InFlight, Frontier;
      if frontier {
        EmptyFlight(raws, r, text);
      }
      if !present {
        return Done(None), found;
      }
      var alive := RemoveRoot();
      if frontier && durable == map[] {
        RootRemoved(raws, r, text);
      }
      o := if alive then Done(None) else Crashed;
    }

    // ------------------------------------------------------------ appending

    function NextRecord(journal: Loaded, state: State, payload: Payload): Record {
      Record(journal.plan.transactionId, |journal.records|, state,
             if journal.records == [] then "" else journal.records[|journal.records| - 1].sha, payload)
    }

    /**
     The condition for an append: every name a load has found is synced, every text is, and no torn file is
     left under the next pending name. A load that found a pending name has synced the names.
     */
    ghost predicate Solid(raws: seq<string>)
      requires Reads(codec, raws)
      reads `files, `durable, `loose
    {
      loose == {} && Synced(codec, files, durable, raws)
    }

    /** `durableWriteExclusive` for the next record. */
    method DurableWrite(r: Record, ghost raws: seq<string>) returns (o: Outcome<string>, ghost text: string)
      requires Lawful(codec) && Clean(codec, files, raws) && Appendable(codec, raws, r)
      modifies `files, `durable, `loose, `fuel
      ensures !o.Blocked?
      ensures o.Done? ==> o.value == text == Text(codec, r) && Clean(codec, files, raws + [text]) && durable == files
      ensures o.Done? ==> CanonicalOf(r) in files && files[CanonicalOf(r)] == text && loose <= old(loose)
      ensures o.Crashed? ==> Frontier(codec, files, raws, r, text)
      ensures o.Crashed? && old(Solid(raws)) ==> Interrupted(codec, files, durable, loose, raws, r, text)
      ensures o.Crashed? && old(Solid(raws)) && (old(fuel) == 0 || old(fuel) >= WRITE_EFFECTS) ==>
                Firm(codec, loose, r, text)
      ensures old(fuel) == WRITE_EFFECTS - 1 && old(Solid(raws)) ==>
                text == Text(codec, r) && Unsynced(files, durable, loose, r)
      ensures old(fuel) == WRITE_EFFECTS + 1 ==>
                && text == Text(codec, r) && durable == old(durable) && loose <= old(loose)
                && files == old(files)[PendingOf(r) := text][CanonicalOf(r) := text]
      ensures o.Crashed? <==> old(fuel) < APPEND_EFFECTS
      ensures o.Crashed? ==> fuel == 0
    {
      hide Frontier, Interrupted, Exactly, Synced;
      var raw := Text(codec, r);
      text := raw;
      var p, canonical := PendingOf(r), CanonicalOf(r);
      CleanIsFrontier(codec, files, raws, r, raw);
      AppendSteps(codec, files, raws, r);
      if canonical in files || p in files {
        return Blocked, text;
      }
      ghost var solid, was, synced := Solid(raws), files, durable;
      var alive, written := Write(p, raw);
      if !alive {
        text := written;
        CleanIsFrontier(codec, was, raws, r, written);
        if solid {
          assert loose == {} || loose == {p};
          SyncedIsFrontier(codec, was, durable, raws, r, written);
          WriteInterrupted(codec, was, durable, raws, r, written);
        }
        return Crashed, written;
      }
      alive := Publish(p, canonical);
      if !alive {
        if solid {
          assert loose == {};
          PublishInterrupted(codec, was, files, synced, durable, raws, r);
        }
        return Crashed, text;
      }
      return Done(raw), text;
    }

    /**
     `appendLegacyMigrationJournalRecord`. It refuses exactly the records the chain does not allow.
     Otherwise the record is on disk when it returns, and a crash at any effect leaves the frontier.
     */
    method Append(journal: Loaded, state: State, payload: Payload, ghost raws: seq<string>)
      returns (o: Outcome<Loaded>, ghost text: string)
      requires Lawful(codec) && present && Clean(codec, files, raws)
      requires journal.records == Entries(codec, raws)
      modifies `files, `durable, `loose, `fuel
      ensures o.Blocked? <==> !Appendable(codec, raws, NextRecord(journal, state, payload))
      ensures o.Blocked? ==> files == old(files) && durable == old(durable) && loose == old(loose)
      ensures o.Done? ==> text == Text(codec, NextRecord(journal, state, payload))
      ensures o.Done? ==> Clean(codec, files, raws + [text]) && durable == files && loose <= old(loose)
      ensures o.Done? ==> o.value == Loaded(journal.plan, Entries(codec, raws + [text]))
      ensures o.Crashed? ==> Frontier(codec, files, raws, NextRecord(journal, state, payload), text)
      ensures o.Crashed? && old(Solid(raws)) ==>
                Interrupted(codec, files, durable, loose, raws, NextRecord(journal, state, payload), text)
      ensures o.Crashed? && old(Solid(raws)) && (old(fuel) == 0 || old(fuel) >= WRITE_EFFECTS) ==>
                Firm(codec, loose, NextRecord(journal, state, payload), text)
      ensures old(fuel) == WRITE_EFFECTS - 1 && !o.Blocked? && old(Solid(raws)) ==>
                text == Text(codec, NextRecord(journal, state, payload))
                    && Unsynced(files, durable, loose, NextRecord(journal, state, payload))
      ensures old(fuel) == WRITE_EFFECTS + 1 && !o.Blocked? ==>
                var r := NextRecord(journal, state, payload);
                && text == Text(codec, r) && durable == old(durable) && loose <= old(loose)
                && files == old(files)[PendingOf(r) := text][CanonicalOf(r) := text]
      ensures o.Crashed? ==> fuel == 0 && old(fuel) < APPEND_EFFECTS
      ensures o.Done? ==> old(fuel) >= APPEND_EFFECTS
    {
      hide Frontier;
      var record := NextRecord(journal, state, payload);
      var raw := Text(codec, record);
      text := raw;
      var valid := ValidateRecordChain(journal.records + [Entry(codec.sha(raw), record)], codec.requestSha);
      CheckedIsAppendable(codec, raws, record);
      if valid.None? {
        return Blocked, text;
      }
      var written;
      written, text := DurableWrite(record, raws);
      if !written.Done? {
        return Crashed, text;
      }
      var loaded := files[CanonicalOf(record)];
      var next := journal.records + [Entry(codec.sha(loaded), codec.parse(loaded).value)];
      assert next == Entries(codec, raws + [text]);
      return Done(Loaded(journal.plan, next)), text;
    }

    /** `createLegacyMigrationJournal`: a new private root, then the `planned` record. */
    method Create(plan: Plan) returns (o: Outcome<Loaded>, ghost text: string)
      requires Lawful(codec) && Placed()
      modifies `files, `durable, `loose, `fuel, `present
      ensures o.Blocked? <==> old(present) || !WellFormedPlan(plan)
      ensures o.Blocked? ==>
              files == old(files) && durable == old(durable) && loose == old(loose) && present == old(present)
      ensures o.Done? ==> present && Clean(codec, files, [text]) && durable == files && loose == {}
      ensures o.Done? ==> o.value.plan == plan && o.value.records == Entries(codec, [text])
      ensures o.Crashed? ==>
                && Placed()
                && Interrupted(codec, files, durable, loose, [],
                     Record(plan.transactionId, 0, Planned, "", PlanPayload(plan)), text)
      ensures o.Crashed? ==> fuel == 0 && old(fuel) < 2 + APPEND_EFFECTS
    {
      hide Frontier;
      text := "";
      var wellFormed := PlanIsWellFormed(plan);
      if !wellFormed || present {
        return Blocked, text;
      }
      ghost var r := NextRecord(Loaded(plan, []), Planned, PlanPayload(plan));
      assert Appendable(codec, [], r) by {
        assert Entries(codec, []) + [Entry("", r)] == [Entry("", r)];
      }
      CleanIsFrontier(codec, files, [], r, "");
      var alive := Spend();
      if !alive {
        return Crashed, text;
      }
      present := true;
      alive := Spend();
      if !alive {
        return Crashed, text;
      }
      o, text := Append(Loaded(plan, []), Planned, PlanPayload(plan), []);
      assert [] + [text] == [text];
    }

    // ------------------------------------------------------------ any number of crashes

    /** A load that has found a pending name has synced the names, and then only an unsynced text is in the way. */
    lemma SolidOnceSynced(raws: seq<string>, r: Record, text: string)
      requires Clean(codec, files, raws) && durable == files && Placed() && Firm(codec, loose, r, text)
      ensures Solid(raws)
    {}

    /** One process starts, loads, and if it dies the power may go too. */
    method LoadOnce(fuel': nat, powerLost: bool, ghost raws: seq<string>, ghost r: Record, ghost text: string)
      returns (o: Outcome<Option<Loaded>>, ghost found: seq<string>)
      requires Lawful(codec) && Placed() && InFlight(raws, r, text) && ForPath(raws, r)
      modifies `files, `durable, `loose, `fuel, `present
      ensures Placed() && !o.Blocked?
      ensures (fuel' >= EffectsToLoad(old(files)) ==> o.Done?) && EffectsToLoad(old(files)) <= LoadEffects(raws)
      ensures o.Done? ==> found == Recovered(codec, old(files), raws, r, text) && Clean(codec, files, found)
      ensures o.Done? ==>
              AllOrNothing(codec, raws, r, found) && (Decided(codec, old(files), r, text) <==> found != raws)
      ensures o.Done? ==> (o.value.None? <==> found == [])
      ensures o.Done? && o.value.Some? ==> o.value.value.records == Entries(codec, found)
      ensures o.Done? && old(durable) == old(files) ==> durable == files
      ensures o.Done? ==> if PendingNames(old(files)) != {} || old(files) == map[] then durable == files
                          else files == old(files) && durable == old(durable) && loose == old(loose)
      ensures o.Done? && PendingNames(old(files)) != {} && old(Firm(codec, loose, r, text)) ==> Solid(found)
      ensures o.Crashed? && powerLost ==> durable == files && loose == {}
      ensures o.Done? || !powerLost || old(Firm(codec, loose, r, text)) ==> InFlight(raws, r, text)
      ensures old(Firm(codec, loose, r, text)) ==> Firm(codec, loose, r, text)
      ensures o.Done? && old(Soft(files, loose, r)) && codec.parse(text).Some? ==> Soft(files, loose, r)
      ensures o.Done? || !powerLost || (old(durable) == old(files) && old(Firm(codec, loose, r, text))) ==>
                (Decided(codec, files, r, text) <==> Decided(codec, old(files), r, text))
    {
      hide Frontier;
      fuel := fuel';
      RecoveredIsAllOrNothing(codec, files, raws, r, text);
      FrontierEffects(codec, files, raws, r, text);
      ghost var firm := Firm(codec, loose, r, text);
      o, found := Load(raws, r, text);
      if o.Done? && durable == files && firm {
        SolidOnceSynced(found, r, text);
      }
      if o.Done? || !powerLost {
        return;
      }
      ghost var current, synced, soft := files, durable, loose;
      PowerLoss(0);
      if firm {
        AfterPowerLoss(codec, current, synced, soft, files, raws, r, text);
      }
    }

    /**
     The process starts, loads and dies, as often as `fuels` says, with a power loss after each
     death. The first load that completes finds the old records, and the appended one exactly when
     its text had reached the disk whole. A process that lives long enough completes.
     */
    method RestartUntilLoaded(fuels: seq<nat>, ghost raws: seq<string>, ghost r: Record, ghost text: string)
      returns (o: Outcome<Option<Loaded>>, ghost found: seq<string>)
      requires Lawful(codec) && durable == files && loose == {} && Placed()
      requires Frontier(codec, files, raws, r, text) && |raws| < 1000 && ForPath(raws, r)
      modifies `files, `durable, `loose, `fuel, `present
      ensures !o.Blocked?
      ensures o.Done? ==> found == Recovered(codec, old(files), raws, r, text)
      ensures o.Done? ==>
              AllOrNothing(codec, raws, r, found) && (Decided(codec, old(files), r, text) <==> found != raws)
      ensures o.Done? ==> durable == files && Clean(codec, files, found)
      ensures o.Done? ==> (o.value.None? <==> found == [])
      ensures o.Done? && o.value.Some? ==> o.value.value.records == Entries(codec, found)
      ensures o.Crashed? ==> durable == files && Frontier(codec, files, raws, r, text)
      ensures (exists i :: 0 <= i < |fuels| && fuels[i] >= LoadEffects(raws)) ==> o.Done?
    {
      hide Frontier;
      ghost var decided := Decided(codec, files, r, text);
      o, found := Crashed, [];
      var i := 0;
      while i < |fuels|
        invariant 0 <= i <= |fuels|
        invariant o.Crashed? && durable == files && Placed() && Firm(codec, loose, r, text)
        invariant forall k :: 0 <= k < i ==> fuels[k] < LoadEffects(raws)
        invariant InFlight(raws, r, text) && (Decided(codec, files, r, text) <==> decided)
      {
        o, found := LoadOnce(fuels[i], true, raws, r, text);
        if o.Done? {
          return;
        }
        i := i + 1;
      }
    }

    /**
     As before, but a death need not take the power with it, so that a later process may find what was
     never synced. As long as no whole text is unsynced, a process that lives long enough still
     completes, and what it finds is all or nothing. It is exactly what the append had decided, as long as
     the power stays.
     */
    method RestartAnyhow(deaths: seq<Death>, ghost raws: seq<string>, ghost r: Record, ghost text: string)
      returns (o: Outcome<Option<Loaded>>, ghost found: seq<string>)
      requires Lawful(codec) && Placed() && InFlight(raws, r, text) && ForPath(raws, r)
      requires Firm(codec, loose, r, text)
      modifies `files, `durable, `loose, `fuel, `present
      ensures !o.Blocked? && Placed() && InFlight(raws, r, text) && Firm(codec, loose, r, text)
      ensures o.Done? ==> AllOrNothing(codec, raws, r, found) && Clean(codec, files, found)
      ensures o.Done? && (forall i :: 0 <= i < |deaths| ==> !deaths[i].powerLost) ==>
                found == Recovered(codec, old(files), raws, r, text)
      ensures o.Done? && o.value.Some? ==> o.value.value.records == Entries(codec, found)
      ensures (exists i :: 0 <= i < |deaths| && deaths[i].fuel >= LoadEffects(raws)) ==> o.Done?
    {
      hide Frontier;
      ghost var decided := Decided(codec, files, r, text);
      o, found := Crashed, [];
      var i := 0;
      while i < |deaths|
        invariant 0 <= i <= |deaths|
        invariant o.Crashed? && Placed() && InFlight(raws, r, text) && Firm(codec, loose, r, text)
        invariant forall k :: 0 <= k < i ==> deaths[k].fuel < LoadEffects(raws)
        invariant (forall k :: 0 <= k < i ==> !deaths[k].powerLost) ==> (Decided(codec, files, r, text) <==> decided)
      {
        o, found := LoadOnce(deaths[i].fuel, deaths[i].powerLost, raws, r, text);
        if o.Done? {
          return;
        }
        i := i + 1;
      }
    }

    /** An append, cut short or not; if it is, the power may go too, and cut a text that was not synced. */
    method AppendOnce(journal: Loaded, state: State, payload: Payload, powerLost: bool, ghost raws: seq<string>)
      returns (appended: bool, ghost text: string)
      requires Lawful(codec) && present && Clean(codec, files, raws) && Solid(raws) && |raws| < 1000
      requires journal.records == Entries(codec, raws)
      requires Appendable(codec, raws, NextRecord(journal, state, payload))
      modifies `files, `durable, `loose, `fuel
      ensures InFlight(raws, NextRecord(journal, state, payload), text) && Backed(files, durable, loose)
      ensures || Firm(codec, loose, NextRecord(journal, state, payload), text)
              || (codec.parse(text).Some? && Unsynced(files, durable, loose, NextRecord(journal, state, payload)))
      ensures powerLost || old(fuel) == 0 || old(fuel) >= WRITE_EFFECTS ==>
                Firm(codec, loose, NextRecord(journal, state, payload), text)
      ensures old(fuel) == WRITE_EFFECTS - 1 && !powerLost ==>
                text == Text(codec, NextRecord(journal, state, payload))
                    && Unsynced(files, durable, loose, NextRecord(journal, state, payload))
      ensures appended <==> old(fuel) >= APPEND_EFFECTS
      ensures appended || powerLost ==> durable == files && loose == {}
      ensures appended ==> EffectsToLoad(files) == 0 && Decided(codec, files, NextRecord(journal, state, payload), text)
    {
      hide Frontier, Exactly, Synced;
      ghost var r := NextRecord(journal, state, payload);
      var result;
      result, text := Append(journal, state, payload, raws);
      appended := result.Done?;
      if appended {
        AppendedIsFrontier(codec, files, raws, r);
        AppendedNeedsNothing(codec, files, raws, text);
      } else if powerLost {
        ghost var current, synced, soft := files, durable, loose;
        PowerLoss(0);
        text := CutFrontier(codec, current, synced, soft, files, raws, r, text);
      }
    }

    /** An append, a crash anywhere in it, and crashed recoveries, each with a power loss: all or nothing. */
    method AppendThenRestart(journal: Loaded, state: State, payload: Payload, fuels: seq<nat>, ghost raws: seq<string>)
      returns (appended: bool, o: Outcome<Option<Loaded>>, ghost found: seq<string>)
      requires Lawful(codec) && present && Clean(codec, files, raws) && Solid(raws) && |raws| < 1000
      requires journal.records == Entries(codec, raws)
      requires Appendable(codec, raws, NextRecord(journal, state, payload))
      requires ForPath(raws, NextRecord(journal, state, payload))
      modifies `files, `durable, `loose, `fuel, `present
      ensures !o.Blocked?
      ensures appended <==> old(fuel) >= APPEND_EFFECTS
      ensures (exists i :: 0 <= i < |fuels| && fuels[i] >= LoadEffects(raws)) ==> o.Done?
      ensures o.Done? ==> Clean(codec, files, found) && durable == files
      ensures o.Done? ==> AllOrNothing(codec, raws, NextRecord(journal, state, payload), found)
      ensures o.Done? && appended ==> found != raws
    {
      hide Frontier;
      ghost var text;
      appended, text := AppendOnce(journal, state, payload, true, raws);
      o, found := RestartUntilLoaded(fuels, raws, NextRecord(journal, state, payload), text);
    }

    /**
     The same when deaths need not take the power with them, for an append that got past the sync of its
     file or whose death took the power.
     */
    method AppendThenRestartAnyhow(journal: Loaded, state: State, payload: Payload, powerLost: bool, deaths: seq<Death>,
                                   ghost raws: seq<string>)
      returns (appended: bool, o: Outcome<Option<Loaded>>, ghost found: seq<string>)
      requires Lawful(codec) && present && Clean(codec, files, raws) && Solid(raws) && |raws| < 1000
      requires journal.records == Entries(codec, raws)
      requires Appendable(codec, raws, NextRecord(journal, state, payload))
      requires ForPath(raws, NextRecord(journal, state, payload))
      requires powerLost || fuel == 0 || fuel >= WRITE_EFFECTS
      modifies `files, `durable, `loose, `fuel, `present
      ensures !o.Blocked?
      ensures appended <==> old(fuel) >= APPEND_EFFECTS
      ensures (exists i :: 0 <= i < |deaths| && deaths[i].fuel >= LoadEffects(raws)) ==> o.Done?
      ensures o.Done? ==> AllOrNothing(codec, raws, NextRecord(journal, state, payload), found)
      ensures o.Done? && appended ==> found != raws
    {
      hide Frontier;
      ghost var r := NextRecord(journal, state, payload);
      ghost var text;
      appended, text := AppendOnce(journal, state, payload, powerLost, raws);
      if !appended {
        o, found := RestartAnyhow(deaths, raws, r, text);
      } else if deaths == [] {
        o, found := Crashed, [];
      } else {
        o, found := LoadOnce(deaths[0].fuel, deaths[0].powerLost, raws, r, text);
      }
    }

    // ------------------------------------------------------------ what the conditions exclude

    /** A power loss with a given outcome. */
    method Lose(after: map<Name, string>)
      requires present && Survives(files, durable, loose, after)
      modifies `files, `durable, `loose
      ensures Placed() && files == durable == after && loose == {}
    {
      files, durable, loose := after, after, {};
    }

    /** From a directory that holds no list of records, however long they live and however often they try. */
    method LoadsRefused(fuels: seq<nat>) returns (os: seq<Outcome<Option<Loaded>>>)
      requires Lawful(codec) && Placed() && Refusing(codec, files)
      modifies `files, `durable, `loose, `fuel, `present
      ensures |os| == |fuels| && (forall i :: 0 <= i < |os| ==> os[i].Blocked?) && Unmoved()
    {
      hide Refusing, Placed, InFlight, LoadKeeps, Returned, Clean, CanonicalKept, Lawful;
      os := [];
      for i := 0 to |fuels|
        invariant |os| == i && (forall k :: 0 <= k < i ==> os[k].Blocked?)
        invariant files == old(files) && durable == old(durable) && loose == old(loose) && present == old(present)
        invariant Placed() && Refusing(codec, files)
      {
        fuel := fuels[i];
        var o, found := Load([], Record("", 0, Planned, "", Malformed), "");
        os := os + [o];
      }
    }

    /** A committed record whose text was never synced: the power takes it, and every load is refused. */
    method LooseThenRefused(n: Name, ghost raws: seq<string>)
      requires Lawful(codec) && present && Clean(codec, files, raws) && n in files && n in loose
      modifies `files, `durable, `loose
      ensures Placed() && files == old(files)[n := ""] && Refusing(codec, files)
    {
      Lose(files[n := ""]);
    }

    /**
     An append that dies between its last write and the sync of its file, while the power stays: the next load
     publishes the text without syncing it and returns the record. Then the power goes, and every load is refused.
     */
    method UnsyncedThenRefused(ghost raws: seq<string>, r: Record, ghost text: string)
      returns (first: Outcome<Option<Loaded>>, ghost found: seq<string>)
      requires Lawful(codec) && Placed() && present && InFlight(raws, r, text) && ForPath(raws, r)
      requires codec.parse(text).Some? && Soft(files, loose, r)
      modifies `files, `durable, `loose, `fuel, `present
      ensures first.Done? && found == raws + [text] && Placed() && Refusing(codec, files)
    {
      SoftIsDecided(codec, files, loose, raws, r, text);
      hide Frontier, Exactly, Firm, Durably, Appendable;
      first, found := LoadOnce(EffectsToLoad(files), false, raws, r, text);
      assert CanonicalOf(r) in files && CanonicalOf(r) in loose;
      LooseThenRefused(CanonicalOf(r), found);
    }

    /** The whole run, from a solid directory. */
    method AppendUnsyncedThenRefused(journal: Loaded, state: State, payload: Payload, ghost raws: seq<string>)
      returns (first: Outcome<Option<Loaded>>, ghost found: seq<string>)
      requires Lawful(codec) && present && Clean(codec, files, raws) && Solid(raws) && |raws| < 1000
      requires journal.records == Entries(codec, raws)
      requires Appendable(codec, raws, NextRecord(journal, state, payload))
      requires ForPath(raws, NextRecord(journal, state, payload))
      modifies `files, `durable, `loose, `fuel, `present
      ensures first.Done? && found == raws + [Text(codec, NextRecord(journal, state, payload))]
      ensures Placed() && Refusing(codec, files)
    {
      var r := NextRecord(journal, state, payload);
      AppendableFacts(codec, raws, r);
      fuel := WRITE_EFFECTS - 1;
      var appended, text := AppendOnce(journal, state, payload, false, raws);
      hide Frontier, Exactly;
      first, found := UnsyncedThenRefused(raws, r, text);
    }

    method DieAfterLink(journal: Loaded, state: State, payload: Payload, ghost raws: seq<string>)
      requires Lawful(codec) && present && Clean(codec, files, raws)
      requires journal.records == Entries(codec, raws)
      requires Appendable(codec, raws, NextRecord(journal, state, payload))
      modifies `files, `durable, `loose, `fuel
      ensures var r := NextRecord(journal, state, payload);
              && files == old(files)[PendingOf(r) := Text(codec, r)][CanonicalOf(r) := Text(codec, r)]
              && durable == old(durable) && loose <= old(loose)
    {
      fuel := WRITE_EFFECTS + 1;
      var appended, text := Append(journal, state, payload, raws);
    }

    method DieAfterUnlink(r: Record, ghost raws: seq<string>)
      requires Lawful(codec) && InFlight(raws, r, Text(codec, r)) && codec.parse(Text(codec, r)) == Some(r)
      requires PendingOf(r) in files && CanonicalOf(r) in files && files[PendingOf(r)] == Text(codec, r)
      modifies `files, `durable, `loose, `fuel
      ensures files == old(files) - {PendingOf(r)} && durable == old(durable) && loose <= old(loose)
    {
      fuel := 1;
      var dropped := DropDuplicate(PendingOf(r), r, raws, r, Text(codec, r));
    }

    /** An append that dies after its link, and a recovery that dies after its unlink. */
    method DieTwice(journal: Loaded, state: State, payload: Payload, ghost raws: seq<string>)
      requires Lawful(codec) && present && durable == files && loose == {} && Clean(codec, files, raws) && |raws| < 1000
      requires journal.records == Entries(codec, raws)
      requires Appendable(codec, raws, NextRecord(journal, state, payload))
      modifies `files, `durable, `loose, `fuel
      ensures var r := NextRecord(journal, state, payload);
              && files == old(files)[CanonicalOf(r) := Text(codec, r)] && durable == old(durable) && loose == {}
    {
      var r := NextRecord(journal, state, payload);
      LinkedBothNames(codec, files, raws, r);
      DieAfterLink(journal, state, payload, raws);
      DieAfterUnlink(r, raws);
    }

    /** The power takes all that was not synced, and the next process loads. */
    method LoseUnsynced(ghost was: map<Name, string>, ghost raws: seq<string>, ghost r: Record, ghost text: string)
      returns (o: Outcome<Option<Loaded>>, ghost found: seq<string>)
      requires Lawful(codec) && Placed() && InFlight(raws, r, text) && ForPath(raws, r)
      requires durable == was && !Decided(codec, was, r, text)
      modifies `files, `durable, `loose, `fuel, `present
      ensures Survives(old(files), old(durable), old(loose), was) && o.Done? && found == raws
    {
      files, loose := durable, {};
      o, found := LoadOnce(EffectsToLoad(files), false, raws, r, text);
    }

    /**
     What a load has found can be lost: an append dies after its link, a recovery after its unlink, and a
     load then finds the record without anything synced. After a power loss the next load does not.
     */
    method LoadedThenLost(journal: Loaded, state: State, payload: Payload, ghost raws: seq<string>)
      returns (first: Outcome<Option<Loaded>>, ghost found: seq<string>,
               second: Outcome<Option<Loaded>>, ghost again: seq<string>)
      requires Lawful(codec) && present && durable == files && loose == {} && Clean(codec, files, raws) && |raws| < 1000
      requires journal.records == Entries(codec, raws)
      requires Appendable(codec, raws, NextRecord(journal, state, payload))
      requires ForPath(raws, NextRecord(journal, state, payload))
      modifies `files, `durable, `loose, `fuel, `present
      ensures first.Done? && found == raws + [Text(codec, NextRecord(journal, state, payload))]
      ensures second.Done? && again == raws
    {
      hide Clean, Exactly, Frontier, Appendable, Durably, Firm, Soft, Lawful;
      var r := NextRecord(journal, state, payload);
      ghost var was := files;
      LinkedBothNames(codec, files, raws, r);
      DieTwice(journal, state, payload, raws);
      assert InFlight(raws, r, Text(codec, r))
             && Recovered(codec, files, raws, r, Text(codec, r)) == raws + [Text(codec, r)];
      first, found := LoadOnce(0, false, raws, r, Text(codec, r));
      second, again := LoseUnsynced(was, raws, r, Text(codec, r));
    }

    /** The name of an earlier record is not synced: the append's own name may survive without it. */
    method GapThenRefused(n: Name, journal: Loaded, state: State, payload: Payload, ghost raws: seq<string>)
      requires Lawful(codec) && present && Clean(codec, files, raws) && journal.records == Entries(codec, raws)
      requires Appendable(codec, raws, NextRecord(journal, state, payload))
      requires n in files && n !in durable && PendingOf(NextRecord(journal, state, payload)) !in durable
      modifies `files, `durable, `loose, `fuel, `present
      ensures Placed() && Refusing(codec, files)
    {
      var r := NextRecord(journal, state, payload);
      ghost var was := files;
      CleanIsFrontier(codec, files, raws, r, Text(codec, r));
      DieAfterLink(journal, state, payload, raws);
      var after := files - {n, PendingOf(r)};
      assert after == was[CanonicalOf(r) := Text(codec, r)] - {n};
      assert PendingNames(after) == {} && CanonicalOf(r) in after;
      forall found ensures !Clean(codec, after, found) {
        GapIsNotClean(codec, was, raws, r, n, after, found);
      }
      Lose(after);
    }

    /** An older torn file is still on disk under the pending name: it may come back beside the new record. */
    method LeftoverThenRefused(journal: Loaded, state: State, payload: Payload, ghost raws: seq<string>)
      requires Lawful(codec) && present && Clean(codec, files, raws) && journal.records == Entries(codec, raws)
      requires Appendable(codec, raws, NextRecord(journal, state, payload)) && |raws| < 1000
      requires var p := PendingOf(NextRecord(journal, state, payload)); p in durable && codec.parse(durable[p]) == None
      modifies `files, `durable, `loose, `fuel, `present
      ensures Placed() && Refusing(codec, files)
    {
      hide Clean, NotNext;
      var r := NextRecord(journal, state, payload);
      var p := PendingOf(r);
      LeftoverNotNext(codec, files, raws, r, durable[p]);
      DieAfterLink(journal, state, payload, raws);
      Lose(files[p := durable[p]]);
    }

    /**
     The condition on the directory before an append is exact: from every other state that a load can leave,
     some run of the append, or none at all, and a power loss ends in a directory that every load refuses.
     */
    method UnsolidThenRefused(journal: Loaded, state: State, payload: Payload, ghost raws: seq<string>)
      requires Lawful(codec) && present && Clean(codec, files, raws) && journal.records == Entries(codec, raws)
      requires Appendable(codec, raws, NextRecord(journal, state, payload)) && |raws| < 1000
      requires Prior(codec, files, durable, loose, raws, NextRecord(journal, state, payload)) && !Solid(raws)
      modifies `files, `durable, `loose, `fuel, `present
      ensures Placed() && Refusing(codec, files)
    {
      var r := NextRecord(journal, state, payload);
      NotSolid(codec, files, durable, loose, raws, r);
      if n :| n in files && n in loose {
        LooseThenRefused(n, raws);
      } else if PendingOf(r) in durable {
        AppendableFacts(codec, raws, r);
        LeftoverThenRefused(journal, state, payload, raws);
      } else {
        var n :| n in files && n !in durable;
        GapThenRefused(n, journal, state, payload, raws);
      }
    }
  }
}
