/**
 The migration journal as a directory: one file per record, published by writing a pending file,
 linking it under its canonical name, and unlinking the pending name. A process may die before any
 effect, and a power loss may undo directory entries and cut texts that were not synced.
 */
module JournalStore {
  import opened Json
  import opened RecordChain

  datatype Name =
    | Canonical(sequence: nat, state: State)
    | Pending(sequence: nat, state: State, transactionId: string)
    | Stray(text: string)

  /** Names carry three digits, so a name the reader recognises has a sequence below 1000. */
  predicate Known(n: Name) {
    !n.Stray? && n.sequence < 1000
  }

  /** How a record becomes file text and back, and the digests of files and requests. */
  datatype Codec = Codec(
    format: Record -> string, parse: string -> Option<Record>, sha: string -> Sha, requestSha: RequestSha)

  /** What `stableJson` and `JSON.parse` give: a whole text reads back, a torn one does not. */
  ghost predicate Lawful(c: Codec) {
    && (forall r: Record :: r.payload != Malformed ==> c.parse(c.format(r)) == Some(r))
    && (forall r: Record :: r.payload != Malformed ==> c.parse(c.format(r) + "\n") == Some(r))
    && (forall r: Record, n: nat :: r.payload != Malformed && n < |c.format(r)| ==> c.parse(c.format(r)[..n]) == None)
    && c.parse("") == None
  }

  function Text(c: Codec, r: Record): string { c.format(r) + "\n" }

  function CanonicalOf(r: Record): Name { Canonical(r.sequence, r.state) }

  function PendingOf(r: Record): Name { Pending(r.sequence, r.state, r.transactionId) }

  // ---------------------------------------------------------------- directory contents

  predicate Reads(c: Codec, raws: seq<string>) {
    forall i :: 0 <= i < |raws| ==> c.parse(raws[i]).Some?
  }

  function Entries(c: Codec, raws: seq<string>): (es: seq<Entry>)
    requires Reads(c, raws)
    ensures |es| == |raws|
    ensures forall i :: 0 <= i < |raws| ==> es[i] == Entry(c.sha(raws[i]), c.parse(raws[i]).value)
  {
    seq(|raws|, i requires 0 <= i < |raws| => Entry(c.sha(raws[i]), c.parse(raws[i]).value))
  }

  /** File texts that form an accepted chain, or none at all. */
  ghost predicate Committed(c: Codec, raws: seq<string>) {
    Reads(c, raws) && (raws == [] || Accepted(Entries(c, raws), c.requestSha))
  }

  /** The canonical files of the directory are exactly the records `raws`, in order. */
  ghost predicate Exactly(c: Codec, files: map<Name, string>, raws: seq<string>) {
    && Committed(c, raws)
    && (forall i :: 0 <= i < |raws| ==>
          var n := CanonicalOf(c.parse(raws[i]).value);
          n in files && files[n] == raws[i])
    && (forall n :: n in files && n.Canonical? ==>
          n.sequence < |raws| && n == CanonicalOf(c.parse(raws[n.sequence]).value))
  }

  /** Nothing but the canonical files of `raws`. */
  ghost predicate Clean(c: Codec, files: map<Name, string>, raws: seq<string>) {
    && Exactly(c, files, raws)
    && forall n :: n in files ==> n.Canonical?
  }

  /** Record `r` may come next after `raws`. */
  ghost predicate Appendable(c: Codec, raws: seq<string>, r: Record) {
    Committed(c, raws) && Accepted(Entries(c, raws) + [Entry("", r)], c.requestSha)
  }

  /** What the pending file of `r` may hold: the whole text, or if that was torn, any torn part. */
  predicate PendingText(c: Codec, r: Record, text: string, t: string) {
    if c.parse(text).Some? then t == text else t <= Text(c, r) && c.parse(t) == None
  }

  /** The pending name of a linked record, which a crash behind the link can leave: one file under two names. */
  predicate IsStale(c: Codec, raws: seq<string>, n: Name, t: string)
    requires Reads(c, raws)
  {
    n.Pending? && n.sequence < |raws| && t == raws[n.sequence] && n == PendingOf(c.parse(t).value)
  }

  predicate Residue(c: Codec, raws: seq<string>, r: Record, text: string, n: Name, t: string)
    requires Reads(c, raws)
  {
    (n == PendingOf(r) && PendingText(c, r, text, t)) || IsStale(c, raws, n, t)
  }

  /**
   Every state an append of `r` can leave behind: the old records with or without the new one, possibly its
   pending name, and possibly pending names of older records. `text` is what was written.
   */
  ghost predicate Frontier(c: Codec, files: map<Name, string>, raws: seq<string>, r: Record, text: string) {
    && Appendable(c, raws, r)
    && text <= Text(c, r)
    && (Exactly(c, files, raws) || (c.parse(text) == Some(r) && Exactly(c, files, raws + [text])))
    && (forall n :: n in files && !n.Canonical? ==> Residue(c, raws, r, text, n, files[n]))
  }

  /** A power loss leaves a synced text as it was, and of any other text some prefix. */
  predicate Left(loose: bool, was: string, now: string) {
    now == was || (loose && now <= was)
  }

  /**
   After a power loss each name is as it was, or as it was when the directory was last synced; the texts of
   the files in `loose` were never synced.
   */
  ghost predicate Survives(files: map<Name, string>, durable: map<Name, string>, loose: set<Name>,
                           after: map<Name, string>) {
    && (forall n :: n in after ==>
          || (n in files && Left(n in loose, files[n], after[n]))
          || (n in durable && Left(n in loose, durable[n], after[n])))
    && (forall n :: n in files && n in durable ==> n in after)
  }

  /** Only a torn pending file may be unsynced: a whole one would be published without being synced. */
  ghost predicate Firm(c: Codec, loose: set<Name>, r: Record, text: string) {
    forall n :: n in loose ==> n == PendingOf(r) && c.parse(text) == None
  }

  // ---------------------------------------------------------------- facts about those predicates

  lemma AppendableFacts(c: Codec, raws: seq<string>, r: Record)
    requires Appendable(c, raws, r)
    ensures r.payload != Malformed && r.sequence == |raws|
    ensures |raws| == 0 ==> r.state == Planned && r.previous == ""
    ensures |raws| > 0 ==> r.previous == Entries(c, raws)[|raws| - 1].sha
    ensures |raws| > 0 ==> r.transactionId == Entries(c, raws)[0].record.transactionId
    ensures forall i :: 0 <= i < |raws| ==> c.parse(raws[i]).value.sequence == i
  {
    var es := Entries(c, raws) + [Entry("", r)];
    assert es[|raws|].record == r;
    if |raws| > 0 {
      SameTransaction(es, c.requestSha, |raws|);
      assert es[|raws| - 1] == Entries(c, raws)[|raws| - 1] && es[0] == Entries(c, raws)[0];
      assert Position(es, |raws|, c.requestSha);
    }
    forall i | 0 <= i < |raws| ensures c.parse(raws[i]).value.sequence == i {
      assert es[i] == Entries(c, raws)[i];
    }
  }

  lemma {:induction false} SameTransaction(es: seq<Entry>, requestSha: RequestSha, i: nat)
    requires Accepted(es, requestSha) && i < |es|
    ensures es[i].record.transactionId == es[0].record.transactionId
  {
    if i > 0 {
      SameTransaction(es, requestSha, i - 1);
    }
  }

  /** Whatever reached the disk either does not parse or is the record, at most without its line end. */
  lemma TornText(c: Codec, r: Record, text: string)
    requires Lawful(c) && r.payload != Malformed && text <= Text(c, r)
    ensures c.parse(text).Some? <==> |text| >= |c.format(r)|
    ensures c.parse(text).Some? ==> c.parse(text) == Some(r)
  {
    var whole := c.format(r);
    if |text| < |whole| {
      assert text == whole[..|text|];
    } else if |text| == |whole| {
      assert text == whole;
    } else {
      assert text == whole + "\n";
    }
  }

  lemma ExtendCommitted(c: Codec, raws: seq<string>, r: Record, text: string)
    requires Appendable(c, raws, r) && c.parse(text) == Some(r)
    ensures Committed(c, raws + [text])
  {
    LastShaIsFree(Entries(c, raws), Entry("", r), c.sha(text), c.requestSha);
    assert Entries(c, raws + [text]) == Entries(c, raws) + [Entry("", r).(sha := c.sha(text))];
  }

  /** Adding the canonical name of the next record extends the records by it. */
  lemma LinkExtends(c: Codec, files: map<Name, string>, raws: seq<string>, r: Record, text: string)
    requires Appendable(c, raws, r) && c.parse(text) == Some(r) && Exactly(c, files, raws)
    ensures Exactly(c, files[CanonicalOf(r) := text], raws + [text])
  {
    ExtendCommitted(c, raws, r, text);
    AppendableFacts(c, raws, r);
    var after, all := files[CanonicalOf(r) := text], raws + [text];
    forall i | 0 <= i < |all|
      ensures CanonicalOf(c.parse(all[i]).value) in after && after[CanonicalOf(c.parse(all[i]).value)] == all[i]
    {
      assert i < |raws| ==> all[i] == raws[i];
    }
  }

  /** Names that are not canonical do not change which records a directory holds. */
  lemma SameCanonical(c: Codec, files: map<Name, string>, other: map<Name, string>, raws: seq<string>)
    requires Exactly(c, files, raws)
    requires forall n: Name :: n.Canonical? ==> (n in files <==> n in other) && (n in files ==> files[n] == other[n])
    ensures Exactly(c, other, raws)
  {}

  /** What a frontier directory holds, name by name. */
  ghost predicate Layout(c: Codec, files: map<Name, string>, raws: seq<string>, r: Record, text: string)
    requires Reads(c, raws)
  {
    && (forall i :: 0 <= i < |raws| ==>
          var n := CanonicalOf(c.parse(raws[i]).value);
          n in files && files[n] == raws[i])
    && (forall n :: n in files && n.Canonical? ==>
          || (n.sequence < |raws| && n == CanonicalOf(c.parse(raws[n.sequence]).value))
          || (n == CanonicalOf(r) && files[n] == text && c.parse(text) == Some(r)))
    && (forall n :: n in files && n.Canonical? && n.sequence < |raws| ==> files[n] == raws[n.sequence])
    && (forall n :: n in files && !n.Canonical? ==> Residue(c, raws, r, text, n, files[n]))
  }

  lemma FrontierLayout(c: Codec, files: map<Name, string>, raws: seq<string>, r: Record, text: string)
    requires Frontier(c, files, raws, r, text)
    ensures Layout(c, files, raws, r, text)
    ensures CanonicalOf(r) in files <==> c.parse(text) == Some(r) && Exactly(c, files, raws + [text])
    ensures CanonicalOf(r) !in files <==> Exactly(c, files, raws)
  {
    AppendableFacts(c, raws, r);
    if c.parse(text) == Some(r) && Exactly(c, files, raws + [text]) {
      LastNamePresent(c, files, raws, r, text);
      var all := raws + [text];
      forall i | 0 <= i < |raws| ensures all[i] == raws[i] {}
    }
  }

  lemma LastNamePresent(c: Codec, files: map<Name, string>, raws: seq<string>, r: Record, text: string)
    requires c.parse(text) == Some(r) && Exactly(c, files, raws + [text])
    ensures CanonicalOf(r) in files && files[CanonicalOf(r)] == text
  {
    assert (raws + [text])[|raws|] == text;
  }

  lemma LayoutExactly(c: Codec, files: map<Name, string>, raws: seq<string>, r: Record, text: string)
    requires Appendable(c, raws, r) && Layout(c, files, raws, r, text)
    ensures Exactly(c, files - {CanonicalOf(r)}, raws)
  {
    AppendableFacts(c, raws, r);
  }

  lemma LayoutFrontier(c: Codec, files: map<Name, string>, raws: seq<string>, r: Record, text: string)
    requires Appendable(c, raws, r) && text <= Text(c, r) && Layout(c, files, raws, r, text)
    ensures Frontier(c, files, raws, r, text)
  {
    AppendableFacts(c, raws, r);
    LayoutExactly(c, files, raws, r, text);
    var before := files - {CanonicalOf(r)};
    if CanonicalOf(r) in files {
      hide Exactly;
      LinkExtends(c, before, raws, r, text);
      assert before[CanonicalOf(r) := text] == files;
    } else {
      assert before == files;
    }
  }

  lemma TornStaysTorn(c: Codec, r: Record, t: string, now: string)
    requires Lawful(c) && r.payload != Malformed && t <= Text(c, r) && c.parse(t) == None && now <= t
    ensures now <= Text(c, r) && c.parse(now) == None
  {
    TornText(c, r, t);
    TornText(c, r, now);
  }

  lemma ResidueSurvives(c: Codec, loose: set<Name>, raws: seq<string>, r: Record, text: string, n: Name, was: string,
                        now: string)
    requires Lawful(c) && Appendable(c, raws, r) && Firm(c, loose, r, text)
    requires Residue(c, raws, r, text, n, was) && Left(n in loose, was, now)
    ensures Residue(c, raws, r, text, n, now)
  {
    AppendableFacts(c, raws, r);
    if n in loose && n == PendingOf(r) {
      assert !IsStale(c, raws, n, was);
      TornStaysTorn(c, r, was, now);
    }
  }

  lemma LayoutSurvives(c: Codec, files: map<Name, string>, durable: map<Name, string>, loose: set<Name>,
                       after: map<Name, string>, raws: seq<string>, r: Record, text: string)
    requires Lawful(c) && Appendable(c, raws, r)
    requires Survives(files, durable, loose, after) && Firm(c, loose, r, text)
    requires Layout(c, files, raws, r, text) && Layout(c, durable, raws, r, text)
    ensures Layout(c, after, raws, r, text)
  {
    forall n | n in after && !n.Canonical? ensures Residue(c, raws, r, text, n, after[n]) {
      if n in files && Left(n in loose, files[n], after[n]) {
        ResidueSurvives(c, loose, raws, r, text, n, files[n], after[n]);
      } else {
        ResidueSurvives(c, loose, raws, r, text, n, durable[n], after[n]);
      }
    }
  }

  /** A power loss in the middle of an append or of a recovery leaves another such state. */
  lemma FrontierSurvives(c: Codec, files: map<Name, string>, durable: map<Name, string>, loose: set<Name>,
                         after: map<Name, string>, raws: seq<string>, r: Record, text: string)
    requires Lawful(c) && Frontier(c, files, raws, r, text) && Frontier(c, durable, raws, r, text)
    requires Survives(files, durable, loose, after) && Firm(c, loose, r, text)
    ensures Frontier(c, after, raws, r, text)
  {
    AppendableFacts(c, raws, r);
    FrontierLayout(c, files, raws, r, text);
    FrontierLayout(c, durable, raws, r, text);
    LayoutSurvives(c, files, durable, loose, after, raws, r, text);
    LayoutFrontier(c, after, raws, r, text);
  }

  /** The directory determines its records. */
  lemma ExactlyDetermines(c: Codec, files: map<Name, string>, a: seq<string>, b: seq<string>)
    requires Exactly(c, files, a) && Exactly(c, files, b)
    ensures a == b
  {
    SequencesCount(c, a);
    SequencesCount(c, b);
    NotLonger(c, files, a, b);
    NotLonger(c, files, b, a);
    forall i | 0 <= i < |a| ensures a[i] == b[i] {
      var n := CanonicalOf(c.parse(a[i]).value);
      assert n in files;
    }
  }

  lemma NotLonger(c: Codec, files: map<Name, string>, a: seq<string>, b: seq<string>)
    requires Exactly(c, files, a) && Exactly(c, files, b)
    ensures |b| <= |a|
  {
    SequencesCount(c, b);
    if |b| > 0 {
      var n := CanonicalOf(c.parse(b[|b| - 1]).value);
      assert n in files && n.sequence == |b| - 1;
    }
  }

  lemma SequencesCount(c: Codec, raws: seq<string>)
    requires Committed(c, raws)
    ensures forall i :: 0 <= i < |raws| ==> c.parse(raws[i]).value.sequence == i
  {
    forall i | 0 <= i < |raws| ensures c.parse(raws[i]).value.sequence == i {
      assert Entries(c, raws)[i].record.sequence == i;
    }
  }

  /** The canonical names fit three digits exactly when the plan has at most 996 owners. */
  lemma NamesFit(es: seq<Entry>, requestSha: RequestSha)
    requires Accepted(es, requestSha) && |es| == |es[0].record.payload.plan.owners| + 4
    ensures (forall i :: 0 <= i < |es| ==> Known(CanonicalOf(es[i].record)))
            <==> |es[0].record.payload.plan.owners| + 4 <= 1000
  {
    if |es| > 1000 {
      assert !Known(CanonicalOf(es[1000].record));
    }
  }
}
