/**
 What an append to the migration journal can leave in its directory, and what each effect of the append, of a
 recovery and of a power loss makes of that.
 */
module JournalFrontier {
  import opened Json
  import opened RecordChain
  import opened JournalStore

  /** `Blocked` is a refusal with a block code, `Crashed` the death of the process. */
  datatype Outcome<+T> = Done(value: T) | Blocked | Crashed

  datatype Loaded = Loaded(plan: Plan, records: seq<Entry>)

  /** What a turn decides about a whole pending record. */
  datatype Verdict = Refuse | DropIt | PublishIt

  /** How long a process lives, and whether the power goes when it dies. */
  datatype Death = Death(fuel: nat, powerLost: bool)

  /** How one turn of the recovery loop ends. */
  datatype Turn = Continue | Abandoned

  /** No committed file disappears or changes. */
  ghost predicate CanonicalKept(before: map<Name, string>, after: map<Name, string>) {
    forall n :: n in before && n.Canonical? ==> n in after && after[n] == before[n]
  }

  function PendingNames(files: map<Name, string>): set<Name> {
    set n | n in files && n.Pending?
  }

  lemma PendingNamesAfter(files: map<Name, string>, p: Name, canonical: Name, raw: string)
    requires canonical.Canonical?
    ensures PendingNames(files - {p}) == PendingNames(files) - {p}
    ensures PendingNames(files[canonical := raw] - {p}) == PendingNames(files) - {p}
  {}

  /** Effects of one turn of the recovery loop, of writing a file, and of an append, at most. */
  const TURN_EFFECTS := 4
  const WRITE_EFFECTS := 3
  const APPEND_EFFECTS := 7

  /** The effects a load of these files may need. */
  function EffectsToLoad(files: map<Name, string>): nat {
    if files == map[] then 2 else TURN_EFFECTS * |PendingNames(files)|
  }

  /** What is always enough after an append to `raws`: a turn for each pending name there can be. */
  function LoadEffects(raws: seq<string>): nat {
    TURN_EFFECTS * (|raws| + 1)
  }

  function StaleNames(c: Codec, raws: seq<string>): set<Name>
    requires Reads(c, raws)
  {
    if raws == [] then {} else StaleNames(c, raws[..|raws| - 1]) + {PendingOf(c.parse(raws[|raws| - 1]).value)}
  }

  lemma {:induction false} StaleCount(c: Codec, raws: seq<string>)
    requires Reads(c, raws)
    ensures |StaleNames(c, raws)| <= |raws|
    ensures forall i :: 0 <= i < |raws| ==> PendingOf(c.parse(raws[i]).value) in StaleNames(c, raws)
  {
    if raws != [] {
      StaleCount(c, raws[..|raws| - 1]);
      forall i | 0 <= i < |raws| - 1 ensures raws[..|raws| - 1][i] == raws[i] {}
    }
  }

  /** An append leaves at most its own pending name and one for each record before. */
  lemma FrontierEffects(c: Codec, files: map<Name, string>, raws: seq<string>, r: Record, text: string)
    requires Frontier(c, files, raws, r, text)
    ensures EffectsToLoad(files) <= LoadEffects(raws)
  {
    StaleCount(c, raws);
    var names := StaleNames(c, raws) + {PendingOf(r)};
    forall n | n in PendingNames(files) ensures n in names {
      assert Residue(c, raws, r, text, n, files[n]);
    }
    Subset(PendingNames(files), names);
  }

  lemma {:induction false} Subset<T>(a: set<T>, b: set<T>)
    requires a <= b
    ensures |a| <= |b|
  {
    if a != {} {
      var x :| x in a;
      Subset(a - {x}, b - {x});
    }
  }

  function UnknownNames(files: map<Name, string>): set<Name> {
    set n | n in files && !Known(n)
  }

  /** The bytes that reached the disk are a whole record, under at least one of its names. */
  ghost predicate Decided(c: Codec, files: map<Name, string>, r: Record, text: string) {
    c.parse(text) == Some(r) && (CanonicalOf(r) in files || PendingOf(r) in files)
  }

  /** The records a completed recovery must find. */
  ghost function Recovered(c: Codec, files: map<Name, string>, raws: seq<string>, r: Record,
                           text: string): seq<string> {
    if Decided(c, files, r, text) then raws + [text] else raws
  }

  /** Still decided after any power loss. */
  ghost predicate Durably(files: map<Name, string>, durable: map<Name, string>, r: Record) {
    || (CanonicalOf(r) in files && CanonicalOf(r) in durable)
    || (PendingOf(r) in files && PendingOf(r) in durable)
  }

  // ---------------------------------------------------------------- reading in sequence order

  ghost predicate Ascending(es: seq<Entry>) {
    forall i, j :: 0 <= i < j < |es| ==> es[i].record.sequence <= es[j].record.sequence
  }

  function Place(es: seq<Entry>, sequence: nat): (k: nat)
    ensures k <= |es|
    ensures forall i :: 0 <= i < k ==> es[i].record.sequence <= sequence
    ensures k < |es| ==> es[k].record.sequence > sequence
  {
    if es == [] || es[0].record.sequence > sequence then 0 else 1 + Place(es[1..], sequence)
  }

  lemma {:induction false} AtLeastIndex(q: seq<nat>, i: nat)
    requires (forall a, b :: 0 <= a < b < |q| ==> q[a] < q[b]) && i < |q|
    ensures i <= q[i]
  {
    if i > 0 {
      AtLeastIndex(q, i - 1);
    }
  }

  /** Ascending numbers without repetition, with every number below `m` among them. */
  lemma {:induction false} Counts(q: seq<nat>, m: nat, i: nat)
    requires forall a, b :: 0 <= a < b < |q| ==> q[a] < q[b]
    requires forall k :: 0 <= k < m ==> k in q
    requires i < m
    ensures i < |q| && q[i] == i
  {
    forall j | 0 <= j < i ensures j < |q| && q[j] == j {
      Counts(q, m, j);
    }
    assert i in q;
    var j :| 0 <= j < |q| && q[j] == i;
    AtLeastIndex(q, j);
  }

  /** Reading the canonical files, with the names in `rest` still to be read. */
  ghost predicate Reading(c: Codec, files: map<Name, string>, rest: set<Name>, es: seq<Entry>, raws: seq<string>) {
    && Reads(c, raws)
    && es == Entries(c, raws)
    && Ascending(es)
    && (forall i, j :: 0 <= i < j < |es| ==> CanonicalOf(es[i].record) != CanonicalOf(es[j].record))
    && (forall i :: 0 <= i < |es| ==>
          var n := CanonicalOf(es[i].record);
          n !in rest && n in files && files[n] == raws[i])
    && (forall n :: n in files && n.Canonical? && Known(n) ==> n in rest || Listed(n, es))
  }

  ghost predicate Listed(n: Name, es: seq<Entry>) {
    exists i :: 0 <= i < |es| && CanonicalOf(es[i].record) == n
  }

  ghost predicate ReadBack(c: Codec, files: map<Name, string>, es: seq<Entry>, raws: seq<string>) {
    Reading(c, files, {}, es, raws)
  }

  function InsertAt<T>(s: seq<T>, k: nat, x: T): (r: seq<T>)
    requires k <= |s|
    ensures |r| == |s| + 1
  {
    s[..k] + [x] + s[k..]
  }

  function InsertedAt<T>(s: seq<T>, k: nat, x: T, i: nat): (y: T)
    requires k <= |s| && i <= |s|
    ensures y == InsertAt(s, k, x)[i]
  {
    if i < k then s[i] else if i == k then x else s[i - 1]
  }

  lemma InsertAscending(es: seq<Entry>, e: Entry)
    requires Ascending(es)
    ensures Ascending(InsertAt(es, Place(es, e.record.sequence), e))
  {
    var k := Place(es, e.record.sequence);
    var r := InsertAt(es, k, e);
    forall i, j | 0 <= i < j < |r| ensures r[i].record.sequence <= r[j].record.sequence {
      assert r[i] == InsertedAt(es, k, e, i) && r[j] == InsertedAt(es, k, e, j);
    }
  }

  lemma InsertDistinct(es: seq<Entry>, k: nat, e: Entry)
    requires k <= |es| && !Listed(CanonicalOf(e.record), es)
    requires forall i, j :: 0 <= i < j < |es| ==> CanonicalOf(es[i].record) != CanonicalOf(es[j].record)
    ensures var r := InsertAt(es, k, e);
            forall i, j :: 0 <= i < j < |r| ==> CanonicalOf(r[i].record) != CanonicalOf(r[j].record)
  {
    var r := InsertAt(es, k, e);
    forall i, j | 0 <= i < j < |r| ensures CanonicalOf(r[i].record) != CanonicalOf(r[j].record) {
      assert r[i] == InsertedAt(es, k, e, i) && r[j] == InsertedAt(es, k, e, j);
    }
  }

  lemma InsertListed(es: seq<Entry>, k: nat, e: Entry, m: Name)
    requires k <= |es| && (Listed(m, es) || CanonicalOf(e.record) == m)
    ensures Listed(m, InsertAt(es, k, e))
  {
    var r := InsertAt(es, k, e);
    if CanonicalOf(e.record) == m {
      assert r[k] == InsertedAt(es, k, e, k);
    } else {
      var i :| 0 <= i < |es| && CanonicalOf(es[i].record) == m;
      var i' := if i < k then i else i + 1;
      assert r[i'] == InsertedAt(es, k, e, i');
    }
  }

  lemma ReadOne(c: Codec, files: map<Name, string>, rest: set<Name>, es: seq<Entry>, raws: seq<string>, n: Name, k: nat)
    requires Reading(c, files, rest, es, raws) && n in rest && n in files
    requires c.parse(files[n]).Some? && CanonicalOf(c.parse(files[n]).value) == n
    requires k == Place(es, c.parse(files[n]).value.sequence)
    ensures Reading(c, files, rest - {n}, InsertAt(es, k, Entry(c.sha(files[n]), c.parse(files[n]).value)),
                    InsertAt(raws, k, files[n]))
  {
    var e := Entry(c.sha(files[n]), c.parse(files[n]).value);
    var es', raws' := InsertAt(es, k, e), InsertAt(raws, k, files[n]);
    forall i | 0 <= i < |raws'|
      ensures c.parse(raws'[i]).Some? && es'[i] == Entry(c.sha(raws'[i]), c.parse(raws'[i]).value)
      ensures CanonicalOf(es'[i].record) !in rest - {n} && CanonicalOf(es'[i].record) in files
      ensures files[CanonicalOf(es'[i].record)] == raws'[i]
    {
      assert raws'[i] == InsertedAt(raws, k, files[n], i) && es'[i] == InsertedAt(es, k, e, i);
    }
    assert es' == Entries(c, raws');
    InsertAscending(es, e);
    InsertDistinct(es, k, e);
    forall m | m in files && m.Canonical? && Known(m) && m !in rest - {n} ensures Listed(m, es') {
      InsertListed(es, k, e, m);
    }
  }

  function SequencesOf(es: seq<Entry>): (q: seq<nat>)
    ensures |q| == |es| && forall i :: 0 <= i < |es| ==> q[i] == es[i].record.sequence
  {
    seq(|es|, i requires 0 <= i < |es| => es[i].record.sequence)
  }

  /** The sequence numbers read from a directory that holds exactly `all` are 0, 1, 2, ... */
  lemma ReadBackCounts(c: Codec, files: map<Name, string>, es: seq<Entry>, raws: seq<string>, all: seq<string>)
    requires ReadBack(c, files, es, raws) && Exactly(c, files, all) && |all| <= 1000
    ensures |es| == |all|
    ensures forall i :: 0 <= i < |es| ==> es[i].record.sequence == i
  {
    SequencesCount(c, all);
    var q := SequencesOf(es);
    forall k | 0 <= k < |all| ensures k in q {
      var n := CanonicalOf(c.parse(all[k]).value);
      assert n in files && Known(n) && Listed(n, es);
      var i :| 0 <= i < |es| && CanonicalOf(es[i].record) == n;
      assert q[i] == k;
    }
    forall i | 0 <= i < |es| ensures q[i] < |all| && es[i].record.state == c.parse(all[q[i]]).value.state {
      assert CanonicalOf(es[i].record) in files;
    }
    forall a, b | 0 <= a < b < |q| ensures q[a] < q[b] {
      assert CanonicalOf(es[a].record) != CanonicalOf(es[b].record);
    }
    forall i | 0 <= i < |all| ensures i < |q| && q[i] == i {
      Counts(q, |all|, i);
    }
    if |q| > 0 {
      AtLeastIndex(q, |q| - 1);
    }
    if |all| > 0 {
      Counts(q, |all|, |all| - 1);
    }
  }

  /** A directory that holds exactly the records `all` is read back as `all`. */
  lemma ReadBackExactly(c: Codec, files: map<Name, string>, es: seq<Entry>, raws: seq<string>, all: seq<string>)
    requires ReadBack(c, files, es, raws) && Exactly(c, files, all) && |all| <= 1000
    ensures raws == all
  {
    ReadBackCounts(c, files, es, raws, all);
    forall i | 0 <= i < |all| ensures raws[i] == all[i] {
      assert CanonicalOf(es[i].record) in files;
    }
  }

  // ---------------------------------------------------------------- frontier steps

  /** Unlinking the pending name keeps the frontier. */
  lemma UnlinkKeepsFrontier(c: Codec, files: map<Name, string>, raws: seq<string>, r: Record, text: string, p: Name)
    requires Frontier(c, files, raws, r, text) && !p.Canonical?
    ensures Frontier(c, files - {p}, raws, r, text)
  {
    if Exactly(c, files, raws) {
      SameCanonical(c, files, files - {p}, raws);
    } else {
      SameCanonical(c, files, files - {p}, raws + [text]);
    }
  }

  /** Linking a whole record under its canonical name keeps the frontier. */
  lemma LinkKeepsFrontier(c: Codec, files: map<Name, string>, raws: seq<string>, r: Record, text: string)
    requires Frontier(c, files, raws, r, text) && c.parse(text) == Some(r) && CanonicalOf(r) !in files
    ensures Frontier(c, files[CanonicalOf(r) := text], raws, r, text)
  {
    FrontierLayout(c, files, raws, r, text);
    LinkExtends(c, files, raws, r, text);
  }

  lemma ExactlyRecovered(c: Codec, files: map<Name, string>, raws: seq<string>, r: Record, text: string)
    requires Frontier(c, files, raws, r, text)
    ensures Exactly(c, files, if CanonicalOf(r) in files then raws + [text] else raws)
  {
    FrontierLayout(c, files, raws, r, text);
  }

  /** A pending name is that of the record in flight, which it decides, or doubles the last record. */
  lemma PendingIs(c: Codec, files: map<Name, string>, raws: seq<string>, r: Record, text: string, p: Name)
    requires Lawful(c) && Frontier(c, files, raws, r, text) && p in files && p.Pending?
    ensures p == PendingOf(r) ==>
              && c.parse(files[p]) == c.parse(text)
              && (c.parse(text).Some? ==> c.parse(text) == Some(r) && files[p] == text)
              && (Decided(c, files, r, text) <==> c.parse(text).Some?)
    ensures p != PendingOf(r) ==>
              && raws != [] && IsStale(c, raws, p, files[p]) && c.parse(files[p]).Some?
              && p == PendingOf(c.parse(files[p]).value)
              && CanonicalOf(c.parse(files[p]).value) in files
              && files[CanonicalOf(c.parse(files[p]).value)] == files[p]
  {
    AppendableFacts(c, raws, r);
    TornText(c, r, text);
    assert Residue(c, raws, r, text, p, files[p]);
    if p != PendingOf(r) {
      FrontierLayout(c, files, raws, r, text);
    }
  }

  /** A power loss between two loads: what was decided durably stays decided, and nothing becomes decided. */
  lemma AfterPowerLoss(c: Codec, files: map<Name, string>, durable: map<Name, string>, loose: set<Name>,
                       after: map<Name, string>, raws: seq<string>, r: Record, text: string)
    requires Lawful(c) && Frontier(c, files, raws, r, text) && Frontier(c, durable, raws, r, text)
    requires Decided(c, durable, r, text) ==> Decided(c, files, r, text)
    requires Survives(files, durable, loose, after) && Firm(c, loose, r, text)
    ensures Frontier(c, after, raws, r, text)
    ensures c.parse(text) == Some(r) && Durably(files, durable, r) ==> Decided(c, after, r, text)
    ensures Decided(c, after, r, text) ==> Decided(c, files, r, text)
  {
    FrontierSurvives(c, files, durable, loose, after, raws, r, text);
  }

  /** After a completed append nothing is left to do for a load. */
  lemma AppendedNeedsNothing(c: Codec, files: map<Name, string>, raws: seq<string>, text: string)
    requires Clean(c, files, raws + [text])
    ensures EffectsToLoad(files) == 0
  {
    assert CanonicalOf(c.parse((raws + [text])[|raws|]).value) in files;
    assert PendingNames(files) == {};
  }

  /** An append that died after its link, and then a recovery that died after its unlink. */
  lemma LinkedBothNames(c: Codec, files: map<Name, string>, raws: seq<string>, r: Record)
    requires Lawful(c) && Clean(c, files, raws) && Appendable(c, raws, r)
    ensures var raw := Text(c, r);
            var linked := files[PendingOf(r) := raw][CanonicalOf(r) := raw];
            && c.parse(raw) == Some(r) && !Decided(c, files, r, raw)
            && Frontier(c, files, raws, r, raw) && Frontier(c, linked, raws, r, raw)
            && Frontier(c, linked - {PendingOf(r)}, raws, r, raw)
            && linked - {PendingOf(r)} == files[CanonicalOf(r) := raw]
            && EffectsToLoad(linked - {PendingOf(r)}) == 0 && linked - {PendingOf(r)} != map[]
            && PendingNames(linked - {PendingOf(r)}) == {}
  {
    var raw := Text(c, r);
    AppendableFacts(c, raws, r);
    AppendSteps(c, files, raws, r);
    CleanIsFrontier(c, files, raws, r, raw);
    AppendedNeedsNothing(c, files[CanonicalOf(r) := raw], raws, raw);
  }

  /** The text is still there whole, under one of its names. */
  ghost predicate Holds(files: map<Name, string>, r: Record, text: string) {
    || (CanonicalOf(r) in files && files[CanonicalOf(r)] == text)
    || (PendingOf(r) in files && files[PendingOf(r)] == text)
  }

  /** The name is synced, and so is the text of its file. */
  ghost predicate Fast(files: map<Name, string>, durable: map<Name, string>, loose: set<Name>, n: Name) {
    n in files && n in durable && n !in loose
  }

  /**
   A decided record survives every power loss exactly if one of its names is there and synced, and the
   text of its file is synced too.
   */
  lemma SurvivesIff(c: Codec, files: map<Name, string>, durable: map<Name, string>, loose: set<Name>,
                    raws: seq<string>, r: Record, text: string)
    requires Lawful(c) && Frontier(c, files, raws, r, text) && Frontier(c, durable, raws, r, text)
    requires Decided(c, files, r, text)
    ensures (forall after :: Survives(files, durable, loose, after) ==> Holds(after, r, text)) <==>
            Fast(files, durable, loose, CanonicalOf(r)) || Fast(files, durable, loose, PendingOf(r))
  {
    DecidedTexts(c, files, raws, r, text);
    DecidedTexts(c, durable, raws, r, text);
    HoldsIff(files, durable, loose, r, text);
  }

  ghost predicate IfThere(files: map<Name, string>, n: Name, text: string) {
    n in files ==> files[n] == text
  }

  lemma HoldsIff(files: map<Name, string>, durable: map<Name, string>, loose: set<Name>, r: Record, text: string)
    requires IfThere(files, CanonicalOf(r), text) && IfThere(files, PendingOf(r), text)
    requires IfThere(durable, CanonicalOf(r), text) && IfThere(durable, PendingOf(r), text) && text != ""
    ensures (forall after :: Survives(files, durable, loose, after) ==> Holds(after, r, text)) <==>
            Fast(files, durable, loose, CanonicalOf(r)) || Fast(files, durable, loose, PendingOf(r))
  {
    var least := map n | n in files && n in durable :: if n in loose then "" else files[n];
    if Fast(files, durable, loose, CanonicalOf(r)) || Fast(files, durable, loose, PendingOf(r)) {
      forall after | Survives(files, durable, loose, after) ensures Holds(after, r, text) {
        var n := if Fast(files, durable, loose, CanonicalOf(r)) then CanonicalOf(r) else PendingOf(r);
        assert n in after && after[n] == text;
      }
    } else {
      assert Survives(files, durable, loose, least) && !Holds(least, r, text);
    }
  }

  lemma DecidedTexts(c: Codec, files: map<Name, string>, raws: seq<string>, r: Record, text: string)
    requires Lawful(c) && Frontier(c, files, raws, r, text) && c.parse(text).Some?
    ensures IfThere(files, CanonicalOf(r), text) && IfThere(files, PendingOf(r), text) && text != ""
  {
    FrontierLayout(c, files, raws, r, text);
    AppendableFacts(c, raws, r);
    if PendingOf(r) in files {
      PendingIs(c, files, raws, r, text, PendingOf(r));
    }
  }

  /** The old records, or the old records and a text of the new one. */
  ghost predicate AllOrNothing(c: Codec, raws: seq<string>, r: Record, found: seq<string>) {
    found == raws || (|found| == |raws| + 1 && found[..|raws|] == raws && c.parse(found[|raws|]) == Some(r))
  }

  lemma RecoveredIsAllOrNothing(c: Codec, files: map<Name, string>, raws: seq<string>, r: Record, text: string)
    ensures AllOrNothing(c, raws, r, Recovered(c, files, raws, r, text))
    ensures Decided(c, files, r, text) <==> Recovered(c, files, raws, r, text) != raws
  {
    assert (raws + [text])[..|raws|] == raws && (raws + [text])[|raws|] == text;
  }

  /** A chain read from a directory without foreign names is all the directory holds. */
  lemma ReadBackAccepted(c: Codec, files: map<Name, string>, es: seq<Entry>, raws: seq<string>)
    requires ReadBack(c, files, es, raws) && Accepted(es, c.requestSha)
    requires forall n :: n in files ==> n.Canonical? && Known(n)
    ensures Clean(c, files, raws)
  {
    forall n | n in files
      ensures n.sequence < |raws| && n == CanonicalOf(c.parse(raws[n.sequence]).value)
    {
      assert Listed(n, es);
      var i :| 0 <= i < |es| && CanonicalOf(es[i].record) == n;
      assert es[i].record.sequence == i;
    }
  }

  /** With the old records and the next one in place, the chain check passes. */
  lemma NextIsAccepted(c: Codec, raws: seq<string>, r: Record, text: string)
    requires Appendable(c, raws, r) && c.parse(text) == Some(r)
    ensures raws != [] ==> Accepted(Entries(c, raws), c.requestSha)
    ensures Accepted(Entries(c, raws) + [Entry(c.sha(text), r)], c.requestSha)
  {
    LastShaIsFree(Entries(c, raws), Entry("", r), c.sha(text), c.requestSha);
    assert Entry("", r).(sha := c.sha(text)) == Entry(c.sha(text), r);
  }

  lemma ReadFrontier(c: Codec, files: map<Name, string>, raws: seq<string>, r: Record, text: string,
                     es: seq<Entry>, read: seq<string>)
    requires Frontier(c, files, raws, r, text) && ReadBack(c, files, es, read) && |raws| < 1000
    ensures read == if CanonicalOf(r) in files then raws + [text] else raws
  {
    ExactlyRecovered(c, files, raws, r, text);
    ReadBackExactly(c, files, es, read, if CanonicalOf(r) in files then raws + [text] else raws);
  }

  /** In a frontier directory every canonical file reads back under its own name. */
  lemma FrontierReads(c: Codec, files: map<Name, string>, raws: seq<string>, r: Record, text: string, n: Name)
    requires Frontier(c, files, raws, r, text) && n in files && n.Canonical?
    ensures c.parse(files[n]).Some? && CanonicalOf(c.parse(files[n]).value) == n
  {
    FrontierLayout(c, files, raws, r, text);
  }

  lemma FrontierNames(c: Codec, files: map<Name, string>, raws: seq<string>, r: Record, text: string)
    requires Frontier(c, files, raws, r, text) && |raws| < 1000
    ensures UnknownNames(files) == {}
    ensures raws == [] && CanonicalOf(r) !in files ==> files - {PendingOf(r)} == map[]
  {
    AppendableFacts(c, raws, r);
    hide Frontier, Exactly;
    FrontierLayout(c, files, raws, r, text);
  }

  lemma NonEmptyFrontier(c: Codec, files: map<Name, string>, raws: seq<string>, r: Record, text: string)
    requires Frontier(c, files, raws, r, text) && (raws != [] || Decided(c, files, r, text))
    ensures files != map[]
  {
    FrontierLayout(c, files, raws, r, text);
    if raws != [] {
      assert CanonicalOf(c.parse(raws[0]).value) in files;
    }
  }

  lemma CleanIsFrontier(c: Codec, files: map<Name, string>, raws: seq<string>, r: Record, text: string)
    requires Clean(c, files, raws) && Appendable(c, raws, r) && text <= Text(c, r)
    ensures Frontier(c, files, raws, r, text)
    ensures CanonicalOf(r) !in files && PendingOf(r) !in files
    ensures Frontier(c, files[PendingOf(r) := text], raws, r, text)
  {
    AppendableFacts(c, raws, r);
    SameCanonical(c, files, files[PendingOf(r) := text], raws);
  }

  /** The directory after each effect of an append, once the pending file is whole. */
  lemma AppendSteps(c: Codec, files: map<Name, string>, raws: seq<string>, r: Record)
    requires Lawful(c) && Clean(c, files, raws) && Appendable(c, raws, r)
    ensures var raw := Text(c, r);
            var linked := files[PendingOf(r) := raw][CanonicalOf(r) := raw];
            && Frontier(c, linked, raws, r, raw)
            && Frontier(c, linked - {PendingOf(r)}, raws, r, raw)
            && linked - {PendingOf(r)} == files[CanonicalOf(r) := raw]
            && Clean(c, files[CanonicalOf(r) := raw], raws + [raw])
  {
    hide Frontier, Exactly;
    var raw := Text(c, r);
    var pending := files[PendingOf(r) := raw];
    AppendableFacts(c, raws, r);
    CleanIsFrontier(c, files, raws, r, raw);
    assert c.parse(raw) == Some(r);
    LinkKeepsFrontier(c, pending, raws, r, raw);
    UnlinkKeepsFrontier(c, pending[CanonicalOf(r) := raw], raws, r, raw, PendingOf(r));
    LinkExtends(c, files, raws, r, raw);
  }

  /** The directory once the record in pending file `p`, if whole, has its canonical name. */
  ghost function Published(c: Codec, files: map<Name, string>, r: Record, text: string, p: Name): map<Name, string> {
    if p == PendingOf(r) && c.parse(text).Some? then files[CanonicalOf(r) := text] else files
  }

  lemma PublishedIsFrontier(c: Codec, files: map<Name, string>, raws: seq<string>, r: Record, text: string, p: Name)
    requires Lawful(c) && Frontier(c, files, raws, r, text) && p in files && p.Pending?
    ensures var linked := Published(c, files, r, text, p);
            && Frontier(c, linked, raws, r, text) && Frontier(c, linked - {p}, raws, r, text)
            && (Decided(c, linked, r, text) <==> Decided(c, files, r, text))
            && (Decided(c, linked - {p}, r, text) <==> Decided(c, files, r, text))
  {
    hide Frontier, Exactly;
    PendingIs(c, files, raws, r, text, p);
    FrontierLayout(c, files, raws, r, text);
    if p == PendingOf(r) && c.parse(text).Some? && CanonicalOf(r) !in files {
      LinkKeepsFrontier(c, files, raws, r, text);
    } else {
      if c.parse(text).Some? {
        DecidedTexts(c, files, raws, r, text);
      }
      assert Published(c, files, r, text, p) == files;
    }
    UnlinkKeepsFrontier(c, Published(c, files, r, text, p), raws, r, text, p);
  }

  /** A whole record under both its names: they are one file, and nothing is to be linked. */
  lemma DuplicateFacts(c: Codec, files: map<Name, string>, raws: seq<string>, r: Record, text: string, p: Name,
                       record: Record)
    requires Lawful(c) && Frontier(c, files, raws, r, text) && p in files && p.Pending?
    requires c.parse(files[p]) == Some(record) && CanonicalOf(record) in files
    ensures files[CanonicalOf(record)] == files[p] && Published(c, files, r, text, p) == files
    ensures p == PendingOf(r) ==> c.parse(text) == Some(r) && record == r
    ensures p != PendingOf(r) ==> raws != []
  {
    PendingIs(c, files, raws, r, text, p);
    if p == PendingOf(r) {
      DecidedTexts(c, files, raws, r, text);
    }
  }

  ghost predicate Discardable(c: Codec, p: Name, existing: seq<Entry>)
    requires p.Pending?
  {
    && p.sequence == |existing|
    && if existing == [] then p.state == Planned
       else p.transactionId == existing[0].record.transactionId && Accepted(existing, c.requestSha)
  }

  ghost predicate Publishable(c: Codec, record: Record, existing: seq<Entry>) {
    && record.sequence == |existing|
    && if existing == [] then record.previous == "" && record.state == Planned
       else record.previous == existing[|existing| - 1].sha && Accepted(existing, c.requestSha)
  }

  /** A torn pending file of an interrupted append is next in line, and there is nothing else to lose. */
  lemma TornIsDiscardable(c: Codec, files: map<Name, string>, raws: seq<string>, r: Record, text: string, p: Name)
    requires Lawful(c) && Frontier(c, files, raws, r, text) && |raws| < 1000
    requires p in files && p.Pending? && c.parse(files[p]) == None
    ensures p == PendingOf(r) && c.parse(text) == None && CanonicalOf(r) !in files
    ensures Discardable(c, p, Entries(c, raws)) && (raws == [] ==> files - {p} == map[])
  {
    PendingIs(c, files, raws, r, text, p);
    FrontierLayout(c, files, raws, r, text);
    AppendableFacts(c, raws, r);
    FrontierNames(c, files, raws, r, text);
  }

  /** A whole pending record that is not linked yet is the one in flight, and is next in line. */
  lemma WholeIsPublishable(c: Codec, files: map<Name, string>, raws: seq<string>, r: Record, text: string, p: Name,
                           record: Record)
    requires Lawful(c) && Frontier(c, files, raws, r, text)
    requires p in files && p.Pending? && c.parse(files[p]) == Some(record) && CanonicalOf(record) !in files
    ensures p == PendingOf(r) && record == r && files[p] == text && c.parse(text) == Some(r)
    ensures Publishable(c, record, Entries(c, raws))
            && Accepted(Entries(c, raws) + [Entry(c.sha(files[p]), record)], c.requestSha)
  {
    PendingIs(c, files, raws, r, text, p);
    AppendableFacts(c, raws, r);
    NextIsAccepted(c, raws, r, text);
  }

  /** The directory holds exactly the records `all`, and a torn pending file whose number is not the next. */
  ghost predicate NotNext(c: Codec, files: map<Name, string>, p: Name, all: seq<string>) {
    && p in files && p.Pending? && c.parse(files[p]) == None
    && Exactly(c, files, all) && |all| <= 1000 && p.sequence != |all|
  }

  /** No list of records can be read: the one pending file is torn and not the next, or there is no such list. */
  ghost predicate Refusing(c: Codec, files: map<Name, string>) {
    || (exists p, all :: PendingNames(files) == {p} && NotNext(c, files, p, all))
    || (PendingNames(files) == {} && files != map[] && Unlisted(c, files))
  }

  ghost predicate Unlisted(c: Codec, files: map<Name, string>) {
    forall found :: !Clean(c, files, found)
  }

  lemma ListedIsNotUnlisted(c: Codec, files: map<Name, string>, found: seq<string>)
    requires Clean(c, files, found)
    ensures !Unlisted(c, files)
  {}

  /** An older torn file beside the next record has the wrong number. */
  lemma LeftoverNotNext(c: Codec, files: map<Name, string>, raws: seq<string>, r: Record, torn: string)
    requires Lawful(c) && Clean(c, files, raws) && Appendable(c, raws, r) && |raws| < 1000 && c.parse(torn) == None
    ensures var p, raw := PendingOf(r), Text(c, r);
            var after := files[p := raw][CanonicalOf(r) := raw][p := torn];
            PendingNames(after) == {p} && NotNext(c, after, p, raws + [raw])
  {
    var p, raw := PendingOf(r), Text(c, r);
    var after := files[p := raw][CanonicalOf(r) := raw][p := torn];
    AppendableFacts(c, raws, r);
    AppendSteps(c, files, raws, r);
    SameCanonical(c, files[CanonicalOf(r) := raw], after, raws + [raw]);
  }

  /** With no pending name left, reading the directory gives the recovered records. */
  lemma ReadRecovered(c: Codec, before: map<Name, string>, files: map<Name, string>, raws: seq<string>, r: Record,
                      text: string, ok: bool, es: seq<Entry>, read: seq<string>)
    requires Frontier(c, files, raws, r, text) && |raws| < 1000
    requires forall n :: n in files ==> n.Canonical?
    requires Decided(c, files, r, text) <==> Decided(c, before, r, text)
    requires ok ==> ReadBack(c, files, es, read)
    requires !ok ==> exists n :: n in files && n.Canonical? &&
                       (c.parse(files[n]) == None || CanonicalOf(c.parse(files[n]).value) != n)
    requires Recovered(c, before, raws, r, text) != []
    ensures ok && read == Recovered(c, before, raws, r, text) && Accepted(es, c.requestSha)
    ensures es[0].record == (Entries(c, raws) + [Entry("", r)])[0].record
  {
    FrontierLayout(c, files, raws, r, text);
    forall n | n in files ensures c.parse(files[n]).Some? && CanonicalOf(c.parse(files[n]).value) == n {
      FrontierReads(c, files, raws, r, text, n);
    }
    ReadFrontier(c, files, raws, r, text, es, read);
    if Decided(c, files, r, text) {
      ExtendCommitted(c, raws, r, text);
      assert raws != [] ==> (raws + [text])[0] == raws[0];
    }
  }

  /** Only files that a process sees or a power loss can bring back are loose. */
  ghost predicate Backed(files: map<Name, string>, durable: map<Name, string>, loose: set<Name>) {
    forall n :: n in loose ==> n in files || n in durable
  }

  /** A synced directory of `raws`, with at most pending names of linked records beside them. */
  ghost predicate Synced(c: Codec, files: map<Name, string>, durable: map<Name, string>, raws: seq<string>)
    requires Reads(c, raws)
  {
    && (forall n :: n in files && n.Canonical? ==> n in durable)
    && (forall n :: n in durable && n.Canonical? ==> n in files && durable[n] == files[n])
    && (forall n :: n in durable && !n.Canonical? ==> IsStale(c, raws, n, durable[n]))
  }

  /**
   What can be there when a load has found `raws` and `r` is appended: names not synced, texts not synced,
   pending names of linked records, or an older torn file under the pending name of `r`, all gone unsynced.
   */
  ghost predicate Prior(c: Codec, files: map<Name, string>, durable: map<Name, string>, loose: set<Name>,
                        raws: seq<string>, r: Record)
    requires Reads(c, raws)
  {
    && Clean(c, files, raws)
    && Backed(files, durable, loose)
    && (forall n :: n in durable && n.Canonical? ==> n in files && durable[n] == files[n])
    && (forall n :: n in durable && !n.Canonical? ==>
          || (n == PendingOf(r) && c.parse(durable[n]) == None)
          || (IsStale(c, raws, n, durable[n]) && (n in loose ==> CanonicalOf(c.parse(durable[n]).value) in loose)))
  }

  /** The next record of a journal that has one has only one possible pending name. */
  lemma NextName(c: Codec, raws: seq<string>, r: Record, next: Record)
    requires raws != [] && Appendable(c, raws, r) && Appendable(c, raws, next)
    ensures PendingOf(r) == PendingOf(next)
  {
    AppendableFacts(c, raws, r);
    AppendableFacts(c, raws, next);
    var es, fs := Entries(c, raws) + [Entry("", r)], Entries(c, raws) + [Entry("", next)];
    StatesByPosition(es, c.requestSha);
    StatesByPosition(fs, c.requestSha);
    assert es[0] == fs[0] && es[|raws|].record == r && fs[|raws|].record == next;
  }

  /** The pending names on disk after a completed load. */
  lemma LeftPendings(c: Codec, files: map<Name, string>, durable: map<Name, string>, loose: set<Name>,
                     raws: seq<string>, r: Record, text: string, found: seq<string>, n: Name)
    requires Lawful(c) && Appendable(c, raws, r) && text <= Text(c, r)
    requires n in durable && Residue(c, raws, r, text, n, durable[n])
    requires Firm(c, loose, r, text) || (c.parse(text).Some? && CanonicalOf(r) in files && Soft(files, loose, r))
    requires found == if c.parse(text).Some? && CanonicalOf(r) in files then raws + [text] else raws
    requires n == PendingOf(r) && c.parse(text).Some? ==> CanonicalOf(r) in files
    requires Reads(c, found)
    ensures || (found == raws && n == PendingOf(r) && c.parse(durable[n]) == None)
            || (IsStale(c, found, n, durable[n]) && (n in loose ==> CanonicalOf(c.parse(durable[n]).value) in loose))
  {
    AppendableFacts(c, raws, r);
    TornText(c, r, text);
  }

  /** The canonical names on disk are those a process sees, with the same texts. */
  lemma LeftCanonicals(c: Codec, files: map<Name, string>, durable: map<Name, string>, raws: seq<string>, r: Record,
                       text: string)
    requires Appendable(c, raws, r) && Layout(c, files, raws, r, text) && Layout(c, durable, raws, r, text)
    requires CanonicalOf(r) in durable ==> CanonicalOf(r) in files
    ensures forall n :: n in durable && n.Canonical? ==> n in files && durable[n] == files[n]
  {
    hide Residue, Appendable;
    AppendableFacts(c, raws, r);
  }

  /** Whatever an append left behind, a load that completes leaves a directory of the kind `Prior` describes. */
  lemma LoadLeavesPrior(c: Codec, files: map<Name, string>, durable: map<Name, string>, loose: set<Name>,
                        raws: seq<string>, r: Record, text: string, found: seq<string>, next: Record)
    requires Lawful(c) && Frontier(c, files, raws, r, text) && Frontier(c, durable, raws, r, text)
    requires Decided(c, durable, r, text) ==> Decided(c, files, r, text)
    requires Firm(c, loose, r, text) || (c.parse(text).Some? && Soft(files, loose, r))
    requires Clean(c, files, found) && found == Recovered(c, files, raws, r, text) && Backed(files, durable, loose)
    requires found != [] && Appendable(c, found, next)
    ensures Prior(c, files, durable, loose, found, next)
  {
    AppendableFacts(c, raws, r);
    TornText(c, r, text);
    FrontierLayout(c, files, raws, r, text);
    FrontierLayout(c, durable, raws, r, text);
    hide Frontier, Exactly, Appendable, Lawful, IsStale, PendingText, Committed;
    LeftCanonicals(c, files, durable, raws, r, text);
    if found == raws {
      NextName(c, raws, r, next);
    }
    forall n | n in durable && !n.Canonical?
      ensures || (n == PendingOf(next) && c.parse(durable[n]) == None)
              || (IsStale(c, found, n, durable[n]) && (n in loose ==> CanonicalOf(c.parse(durable[n]).value) in loose))
    {
      LeftPendings(c, files, durable, loose, raws, r, text, found, n);
    }
  }

  /** A directory that is not solid has a loose record, a torn file under the next pending name, or an unsynced name. */
  lemma NotSolid(c: Codec, files: map<Name, string>, durable: map<Name, string>, loose: set<Name>, raws: seq<string>,
                 r: Record)
    requires Reads(c, raws) && Prior(c, files, durable, loose, raws, r)
    requires loose != {} || !Synced(c, files, durable, raws)
    ensures || (exists n :: n in files && n in loose) || PendingOf(r) in durable
            || (exists n :: n in files && n !in durable)
  {
    if loose != {} && PendingOf(r) !in durable {
      var n :| n in loose;
      if n !in files {
        assert CanonicalOf(c.parse(durable[n]).value) in files;
      }
    }
  }

  lemma NumberPresent(c: Codec, files: map<Name, string>, raws: seq<string>, k: nat)
    requires Exactly(c, files, raws) && k < |raws|
    ensures exists m :: m in files && m.Canonical? && m.sequence == k
  {
    SequencesCount(c, raws);
    assert CanonicalOf(c.parse(raws[k]).value) in files;
  }

  /** A directory with a gap in the numbers holds no list of records. */
  lemma GapIsNotClean(c: Codec, files: map<Name, string>, raws: seq<string>, r: Record, n: Name,
                      after: map<Name, string>, found: seq<string>)
    requires Clean(c, files, raws) && Appendable(c, raws, r) && n in files
    requires after == files[CanonicalOf(r) := Text(c, r)] - {n}
    ensures !Clean(c, after, found)
  {
    AppendableFacts(c, raws, r);
    if Clean(c, after, found) {
      assert CanonicalOf(r) in after;
      NumberPresent(c, after, found, n.sequence);
    }
  }

  lemma SyncedIsFrontier(c: Codec, files: map<Name, string>, durable: map<Name, string>, raws: seq<string>, r: Record,
                         text: string)
    requires Clean(c, files, raws) && Appendable(c, raws, r) && text <= Text(c, r) && Synced(c, files, durable, raws)
    ensures Frontier(c, durable, raws, r, text) && CanonicalOf(r) !in durable && PendingOf(r) !in durable
  {
    AppendableFacts(c, raws, r);
    SameCanonical(c, files, durable, raws);
  }

  /** The record's file is there under one of its names, and its text was never synced; every other text was. */
  ghost predicate Soft(files: map<Name, string>, loose: set<Name>, r: Record) {
    && loose <= {CanonicalOf(r), PendingOf(r)}
    && if CanonicalOf(r) in files then CanonicalOf(r) in loose else PendingOf(r) in files && PendingOf(r) in loose
  }

  lemma SoftIsDecided(c: Codec, files: map<Name, string>, loose: set<Name>, raws: seq<string>, r: Record, text: string)
    requires Lawful(c) && Frontier(c, files, raws, r, text) && c.parse(text).Some? && Soft(files, loose, r)
    ensures Decided(c, files, r, text)
  {
    AppendableFacts(c, raws, r);
    TornText(c, r, text);
  }

  /** What a crash of the append of `r` leaves of a solid directory. */
  ghost predicate Interrupted(c: Codec, files: map<Name, string>, durable: map<Name, string>, loose: set<Name>,
                              raws: seq<string>, r: Record, text: string) {
    && Frontier(c, files, raws, r, text) && Frontier(c, durable, raws, r, text)
    && (Decided(c, durable, r, text) ==> Decided(c, files, r, text))
    && (Firm(c, loose, r, text) || (c.parse(text).Some? && Unsynced(files, durable, loose, r)))
    && Backed(files, durable, loose)
  }

  /** The pending file is whole, was never synced, and is not linked yet. */
  ghost predicate Unsynced(files: map<Name, string>, durable: map<Name, string>, loose: set<Name>, r: Record) {
    loose == {PendingOf(r)} && PendingOf(r) in files && CanonicalOf(r) !in files && CanonicalOf(r) !in durable
  }

  /** If the power goes with an append, its unsynced text is cut, and what is left is a torn append or a whole one. */
  lemma CutFrontier(c: Codec, files: map<Name, string>, durable: map<Name, string>, loose: set<Name>,
                    after: map<Name, string>, raws: seq<string>, r: Record, text: string) returns (cut: string)
    requires Lawful(c) && Interrupted(c, files, durable, loose, raws, r, text) && Survives(files, durable, loose, after)
    ensures Frontier(c, after, raws, r, cut)
    ensures Firm(c, loose, r, text) ==> cut == text
  {
    if Firm(c, loose, r, text) {
      FrontierSurvives(c, files, durable, loose, after, raws, r, text);
      return text;
    }
    var p := PendingOf(r);
    cut := if p in after then after[p] else text;
    AppendableFacts(c, raws, r);
    FrontierLayout(c, files, raws, r, text);
    FrontierLayout(c, durable, raws, r, text);
    DecidedTexts(c, files, raws, r, text);
    DecidedTexts(c, durable, raws, r, text);
    TornText(c, r, cut);
    forall n | n in after && !n.Canonical? ensures Residue(c, raws, r, cut, n, after[n]) {
      if n != p {
        if n in files && Left(n in loose, files[n], after[n]) {
          assert Residue(c, raws, r, text, n, files[n]);
        } else {
          assert Residue(c, raws, r, text, n, durable[n]);
        }
      }
    }
    SameCanonical(c, files, after, raws);
  }

  lemma WriteInterrupted(c: Codec, files: map<Name, string>, durable: map<Name, string>, raws: seq<string>, r: Record,
                         written: string)
    requires Lawful(c) && Clean(c, files, raws) && Appendable(c, raws, r) && Synced(c, files, durable, raws)
    requires written <= Text(c, r)
    ensures Interrupted(c, files, durable, {}, raws, r, written) && Firm(c, {}, r, written)
    ensures Interrupted(c, files[PendingOf(r) := written], durable, {PendingOf(r)}, raws, r, written)
  {
    CleanIsFrontier(c, files, raws, r, written);
    SyncedIsFrontier(c, files, durable, raws, r, written);
  }

  lemma PublishInterrupted(c: Codec, was: map<Name, string>, files: map<Name, string>, durable: map<Name, string>,
                           durable': map<Name, string>, raws: seq<string>, r: Record)
    requires Lawful(c) && Clean(c, was, raws) && Appendable(c, raws, r) && Synced(c, was, durable, raws)
    requires var pending := was[PendingOf(r) := Text(c, r)];
             var linked := pending[CanonicalOf(r) := Text(c, r)];
             && (files == pending || files == linked || files == linked - {PendingOf(r)})
             && (durable' == durable || durable' == linked || durable' == linked - {PendingOf(r)})
    ensures Interrupted(c, files, durable', {}, raws, r, Text(c, r)) && Firm(c, {}, r, Text(c, r))
  {
    hide Frontier, Exactly, Synced;
    CleanIsFrontier(c, was, raws, r, Text(c, r));
    AppendSteps(c, was, raws, r);
    SyncedIsFrontier(c, was, durable, raws, r, Text(c, r));
  }

  lemma AppendedIsFrontier(c: Codec, files: map<Name, string>, raws: seq<string>, r: Record)
    requires Lawful(c) && Appendable(c, raws, r) && Clean(c, files, raws + [Text(c, r)])
    ensures Frontier(c, files, raws, r, Text(c, r))
    ensures c.parse(Text(c, r)) == Some(r) && Durably(files, files, r)
  {
    AppendableFacts(c, raws, r);
    assert c.parse(Text(c, r)) == Some(r);
    LastNamePresent(c, files, raws, r, Text(c, r));
  }

  /** The check before an append passes exactly for the records that may come next. */
  lemma CheckedIsAppendable(c: Codec, raws: seq<string>, r: Record)
    requires Lawful(c) && Committed(c, raws)
    ensures Accepted(Entries(c, raws) + [Entry(c.sha(Text(c, r)), r)], c.requestSha) <==> Appendable(c, raws, r)
  {
    var es, sha := Entries(c, raws), c.sha(Text(c, r));
    if Accepted(es + [Entry(sha, r)], c.requestSha) {
      LastShaIsFree(es, Entry(sha, r), "", c.requestSha);
      assert Entry(sha, r).(sha := "") == Entry("", r);
    }
    if Appendable(c, raws, r) {
      LastShaIsFree(es, Entry("", r), sha, c.requestSha);
      assert Entry("", r).(sha := sha) == Entry(sha, r);
    }
  }

  /** A clean journal has only names the loader recognises exactly when it has at most 1000 records. */
  lemma ReadableWhenShort(c: Codec, files: map<Name, string>, raws: seq<string>)
    requires Clean(c, files, raws)
    ensures UnknownNames(files) == {} <==> |raws| <= 1000
  {
    SequencesCount(c, raws);
    if |raws| > 1000 {
      var n := CanonicalOf(c.parse(raws[1000]).value);
      assert n in UnknownNames(files);
    }
  }
}
