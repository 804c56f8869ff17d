/**
 General-terminal delivery batches: what the desktop recomputes from a public batch before it shows
 it, and what the batch digest therefore binds. SHA-256 is a parameter taken as collision-free.
 */
module DeliveryBatch {
  import opened Json
  import opened JsonRoundTrip
  import opened JsonCanonical
  import opened DigestText
  import PublicTree

  datatype Entry = Entry(slot: string, eventId: string, payloadDigest: string)

  datatype Batch = Batch(
    batchDigest: string, threadId: string, turnId: string, seqNo: nat, firstSeq: nat, lastSeq: nat,
    timestamp: string, commitId: string, authorityDigest: string, manifestDigest: string, eventsDigest: string,
    events: seq<Json>, manifest: seq<Entry>)

  datatype Reason =
    | TreeInvalid | Screened | SchemaInvalid | OrdinaryResultInvalid | BindingInvalid | IntegrityInvalid

  datatype Verdict = Verified(batch: Batch) | Refused(reason: Reason)

  /** The screens for private content, the schema parser, the checks of single fields, and the hash. */
  datatype Rules = Rules(
    clean: Json -> bool, parse: Json -> Option<Batch>, exactFields: Batch -> bool, ordinaryResult: Json -> bool,
    sha: Hash)

  // ---------------------------------------------------------------- the digested texts

  function EntryFields(e: Entry): seq<Field> {
    [Field("slot", Str(e.slot)), Field("eventId", Str(e.eventId)), Field("payloadDigest", Str(e.payloadDigest))]
  }

  function EntryObjects(manifest: seq<Entry>): (r: seq<Json>)
    ensures |r| == |manifest|
    ensures forall i :: 0 <= i < |manifest| ==> r[i] == Obj(EntryFields(manifest[i]))
  {
    seq(|manifest|, i requires 0 <= i < |manifest| => Obj(EntryFields(manifest[i])))
  }

  function ManifestText(manifest: seq<Entry>): string {
    Print(Arr(EntryObjects(manifest)), Go)
  }

  function EventsText(events: seq<Json>): string {
    Canonical(Arr(events), Go, Utf8Bytes)
  }

  function DigestKeys(): (r: seq<string>)
    ensures |r| == 21
  {
    [ "schemaVersion", "purpose", "kind", "batchDigest", "threadId", "turnId", "seq", "firstSeq", "lastSeq",
      "timestamp", "generalTerminalCommitId", "generalTerminalAuthorityKind", "generalTerminalAuthorityDigest",
      "eventManifestDigest", "projectedEventsDigest", "transportAuthority", "evidenceAuthority",
      "citationAuthority", "factAnswerAllowed", "events", "eventManifest" ]
  }

  /** The digested values, in the order of their keys; the batch's own digest is left empty. */
  function DigestValues(b: Batch): (r: seq<Json>)
    ensures |r| == 21
  {
    [ Number(1), Str("analytix.general-terminal-delivery-batch/v1"), Str("general_terminal_batch"), Str(""),
      Str(b.threadId), Str(b.turnId), Number(b.seqNo), Number(b.firstSeq), Number(b.lastSeq),
      Str(b.timestamp), Str(b.commitId), Str("general_terminal_cas"), Str(b.authorityDigest),
      Str(b.manifestDigest), Str(b.eventsDigest), Str("host_batch_digest_v1"), Bool(false),
      Bool(false), Bool(false), Normalize(Arr(b.events), Utf8Bytes), Arr(EntryObjects(b.manifest)) ]
  }

  function DigestTextOf(b: Batch): string {
    ObjectText(DigestKeys(), DigestValues(b))
  }

  function EventId(commitId: string, slot: string, sha: Hash): string {
    sha(EventIdentity, commitId + "\0" + slot)
  }

  // ---------------------------------------------------------------- what is checked

  /** The part of the schema that fixes the range and the lists; the literals are in the digested object. */
  predicate SchemaRange(b: Batch) {
    && b.firstSeq > 0 && b.seqNo == b.lastSeq && b.lastSeq + 1 == b.firstSeq + |b.events|
    && |b.manifest| == |b.events| && 2 <= |b.events| <= 3
    && AreEvents(b.events)
  }

  function ExpectedSlots(n: nat): seq<string> {
    if n == 2 then ["usage", "terminal"] else ["terminal-item", "usage", "terminal"]
  }

  predicate EntryFits(entry: Entry, commitId: string, slot: string, sha: Hash) {
    entry.slot == slot && entry.eventId == EventId(commitId, slot, sha)
  }

  predicate EventFits(event: Json, b: Batch, n: nat) {
    && Has(event, "threadId", Str(b.threadId))
    && Has(event, "turnId", Str(b.turnId))
    && Has(event, "timestamp", Str(b.timestamp))
    && IsNumbered(event, n)
  }

  /** One manifest entry and its event belong to the batch, at their place. */
  predicate Bound(b: Batch, i: nat, sha: Hash)
    requires SchemaRange(b) && i < |b.manifest|
  {
    && EntryFits(b.manifest[i], b.commitId, ExpectedSlots(|b.events|)[i], sha)
    && EventFits(b.events[i], b, b.firstSeq + i)
  }

  predicate Intact(b: Batch, sha: Hash) {
    && sha(ManifestDigest, ManifestText(b.manifest)) == b.manifestDigest
    && sha(ProjectedEvents, EventsText(b.events)) == b.eventsDigest
    && sha(BatchDigest, DigestTextOf(b)) == b.batchDigest
  }

  ghost predicate Accepted(b: Batch, sha: Hash) {
    SchemaRange(b) && Intact(b, sha) && AllBound(b, sha)
  }

  ghost predicate AllBound(b: Batch, sha: Hash)
    requires SchemaRange(b)
  {
    && (forall i :: 0 <= i < |b.manifest| ==> Bound(b, i, sha))
    && (forall i, j :: 0 <= i < j < |b.manifest| ==> b.manifest[i].eventId != b.manifest[j].eventId)
  }

  // ---------------------------------------------------------------- verification

  /** The binding loop: each entry against its event, and no event id twice. */
  method VerifyBinding(b: Batch, sha: Hash) returns (ok: bool)
    requires SchemaRange(b)
    ensures ok <==> AllBound(b, sha)
  {
    var slots := ExpectedSlots(|b.events|);
    var seen: set<string> := {};
    var index := 0;
    while index < |b.manifest|
      invariant index <= |b.manifest|
      invariant forall i :: 0 <= i < index ==> Bound(b, i, sha)
      invariant forall i, j :: 0 <= i < j < index ==> b.manifest[i].eventId != b.manifest[j].eventId
      invariant forall id :: id in seen <==> exists i :: 0 <= i < index && b.manifest[i].eventId == id
    {
      var entry, event := b.manifest[index], b.events[index];
      if !EntryFits(entry, b.commitId, slots[index], sha) || !EventFits(event, b, b.firstSeq + index) {
        assert !Bound(b, index, sha);
        return false;
      }
      if entry.eventId in seen {
        ghost var i :| 0 <= i < index && b.manifest[i].eventId == entry.eventId;
        return false;
      }
      seen := seen + {entry.eventId};
      index := index + 1;
    }
    return true;
  }

  predicate Admissible(value: Json, rules: Rules) {
    && PublicTree.Fits(value) && rules.clean(value) && rules.parse(value).Some?
    && var b := rules.parse(value).value;
    && SchemaRange(b) && rules.exactFields(b)
    && (|b.events| == 3 ==> rules.ordinaryResult(b.events[0]))
  }

  /** A batch is verified exactly when every check passes, and then it is the parsed batch itself. */
  method Verify(value: Json, rules: Rules) returns (v: Verdict)
    ensures v.Verified? <==> Admissible(value, rules) && Accepted(rules.parse(value).value, rules.sha)
    ensures v.Verified? ==> rules.parse(value) == Some(v.batch)
    ensures v == Refused(TreeInvalid) <==> !PublicTree.Fits(value)
    ensures v == Refused(Screened) <==> PublicTree.Fits(value) && !rules.clean(value)
    ensures v == Refused(OrdinaryResultInvalid) <==>
              PublicTree.Fits(value) && rules.clean(value) && rules.parse(value).Some? &&
              var b := rules.parse(value).value;
              SchemaRange(b) && rules.exactFields(b) && |b.events| == 3 && !rules.ordinaryResult(b.events[0])
    ensures v == Refused(BindingInvalid) <==>
              Admissible(value, rules) && !AllBound(rules.parse(value).value, rules.sha)
    ensures v == Refused(IntegrityInvalid) <==>
              Admissible(value, rules) && AllBound(rules.parse(value).value, rules.sha)
              && !Intact(rules.parse(value).value, rules.sha)
  {
    var bounded := PublicTree.HasBoundedTree(value);
    if !bounded {
      return Refused(TreeInvalid);
    }
    if !rules.clean(value) {
      return Refused(Screened);
    }
    var parsed := rules.parse(value);
    if parsed.None? || !SchemaRange(parsed.value) || !rules.exactFields(parsed.value) {
      return Refused(SchemaInvalid);
    }
    var b := parsed.value;
    if |b.events| == 3 && !rules.ordinaryResult(b.events[0]) {
      return Refused(OrdinaryResultInvalid);
    }
    var bound := VerifyBinding(b, rules.sha);
    if !bound {
      return Refused(BindingInvalid);
    }
    if !Intact(b, rules.sha) {
      return Refused(IntegrityInvalid);
    }
    return Verified(b);
  }

  // ---------------------------------------------------------------- what the digest binds

  lemma EntryWellFormed(e: Entry)
    ensures WellFormed(Obj(EntryFields(e)))
  {
    assert |"slot"| == 4 && |"eventId"| == 7 && |"payloadDigest"| == 13;
  }

  lemma ManifestWellFormed(manifest: seq<Entry>)
    ensures WellFormed(Arr(EntryObjects(manifest)))
  {
    forall i | 0 <= i < |manifest| ensures WellFormed(EntryObjects(manifest)[i]) {
      EntryWellFormed(manifest[i]);
    }
  }

  lemma EventsWellFormed(events: seq<Json>)
    requires AreEvents(events)
    ensures WellFormed(Normalize(Arr(events), Utf8Bytes))
  {
    NormalizeWellFormed(Arr(events), Utf8Bytes);
  }

  lemma EntriesEqual(a: seq<Entry>, b: seq<Entry>)
    requires EntryObjects(a) == EntryObjects(b)
    ensures a == b
  {
    assert |a| == |EntryObjects(a)| == |b|;
    forall i | 0 <= i < |a| ensures a[i] == b[i] {
      assert EntryObjects(a)[i] == EntryObjects(b)[i];
      var x, y := EntryFields(a[i]), EntryFields(b[i]);
      assert x[0].value == y[0].value && x[1].value == y[1].value && x[2].value == y[2].value;
    }
  }

  lemma DigestValuesReadable(b: Batch)
    requires AreEvents(b.events)
    ensures Readable(DigestValues(b))
  {
    ManifestWellFormed(b.manifest);
    EventsWellFormed(b.events);
  }

  /** Every digested field of two batches agrees; events agree as JSON values. */
  ghost predicate SameContent(a: Batch, b: Batch) {
    && a.(events := []) == b.(events := [])
    && SameEvents(a.events, b.events)
  }

  lemma ValuesDetermine(a: Batch, b: Batch)
    requires AreEvents(a.events) && AreEvents(b.events) && a.batchDigest == b.batchDigest
    requires DigestValues(a) == DigestValues(b)
    ensures SameContent(a, b)
  {
    var x, y := DigestValues(a), DigestValues(b);
    assert x[4] == y[4] && x[5] == y[5] && x[6] == y[6] && x[7] == y[7] && x[8] == y[8];
    assert x[9] == y[9] && x[10] == y[10] && x[12] == y[12] && x[13] == y[13] && x[14] == y[14];
    assert x[19] == y[19] && x[20] == y[20];
    NumberInjective(a.seqNo, b.seqNo);
    NumberInjective(a.firstSeq, b.firstSeq);
    NumberInjective(a.lastSeq, b.lastSeq);
    EntriesEqual(a.manifest, b.manifest);
    NormalizesSame(Arr(a.events), Arr(b.events), Utf8Bytes);
  }

  /** Two accepted batches with the same batch digest agree on every digested field. */
  lemma BatchDigestBinds(a: Batch, b: Batch, sha: Hash)
    requires Injective(sha) && Accepted(a, sha) && Accepted(b, sha)
    requires a.batchDigest == b.batchDigest
    ensures SameContent(a, b)
  {
    DigestValuesReadable(a);
    DigestValuesReadable(b);
    ObjectTextInjective(DigestKeys(), DigestValues(a), DigestValues(b));
    ValuesDetermine(a, b);
  }

  /** The manifest digest alone binds the manifest, and the events digest alone the events. */
  lemma PartDigestsBind(a: Batch, b: Batch, sha: Hash)
    requires Injective(sha) && Accepted(a, sha) && Accepted(b, sha)
    ensures a.manifestDigest == b.manifestDigest ==> a.manifest == b.manifest
    ensures a.eventsDigest == b.eventsDigest <==> SameEvents(a.events, b.events)
  {
    ManifestDigestBinds(a, b, sha);
    EventsIdentified(a.events, b.events, Utf8Bytes);
  }

  lemma ManifestDigestBinds(a: Batch, b: Batch, sha: Hash)
    requires Injective(sha) && Intact(a, sha) && Intact(b, sha)
    ensures a.manifestDigest == b.manifestDigest ==> a.manifest == b.manifest
  {
    if a.manifestDigest == b.manifestDigest {
      ManifestWellFormed(a.manifest);
      ManifestWellFormed(b.manifest);
      PrintInjective(Arr(EntryObjects(a.manifest)), Arr(EntryObjects(b.manifest)), Go);
      EntriesEqual(a.manifest, b.manifest);
    }
  }

  /** The events of an accepted batch are numbered exactly firstSeq, firstSeq + 1, ..., lastSeq. */
  lemma SequenceIsExact(b: Batch, sha: Hash, n: nat)
    requires SchemaRange(b) && forall i :: 0 <= i < |b.manifest| ==> Bound(b, i, sha)
    ensures b.firstSeq <= n <= b.lastSeq <==> exists i :: 0 <= i < |b.events| && IsNumbered(b.events[i], n)
  {
    forall i | 0 <= i < |b.events| ensures IsNumbered(b.events[i], b.firstSeq + i) {
      assert Bound(b, i, sha);
    }
    NumberedExactly(b.events, b.firstSeq, n);
  }

  /** Event ids are distinct whenever each is the hash it should be: the duplicate check is never the one that fails. */
  lemma DuplicatesNeverReached(b: Batch, sha: Hash)
    requires Injective(sha) && SchemaRange(b) && forall i :: 0 <= i < |b.manifest| ==> Bound(b, i, sha)
    ensures forall i, j :: 0 <= i < j < |b.manifest| ==> b.manifest[i].eventId != b.manifest[j].eventId
  {
    forall i, j | 0 <= i < j < |b.manifest| ensures b.manifest[i].eventId != b.manifest[j].eventId {
      var s, t := b.manifest[i].slot, b.manifest[j].slot;
      assert Bound(b, i, sha) && Bound(b, j, sha);
      SlotsDiffer(|b.events|, i, j);
      if b.manifest[i].eventId == b.manifest[j].eventId {
        CancelPrefix(b.commitId + "\0", s, t);
      }
    }
  }

  lemma SlotsDiffer(n: nat, i: nat, j: nat)
    requires 2 <= n <= 3 && i < j < n
    ensures ExpectedSlots(n)[i] != ExpectedSlots(n)[j]
  {
    assert |"usage"| == 5 && |"terminal"| == 8 && |"terminal-item"| == 13;
  }
}
