/**
 Accepted-final delivery batches: every event is bound to its batch by a payload digest, the batch id
 binds the list of payload digests, and a signed seal binds the events with their numbers.
 */
module AcceptedFinal {
  import opened Json
  import opened JsonRoundTrip
  import opened JsonCanonical
  import opened DigestText
  import opened DeliveryBatch

  datatype Seal = Seal(
    schemaVersion: nat, purpose: string, sealId: string, threadId: string, turnId: string, commitId: string,
    dispositionDigest: string, dispositionId: string, manifestDigest: string, eventsDigest: string, batchId: string,
    firstSeq: nat, lastSeq: nat, timestamp: string, algorithm: string, keyId: string, publicKey: string,
    signature: string)

  datatype FinalBatch = FinalBatch(
    batchId: string, threadId: string, turnId: string, seqNo: nat, firstSeq: nat, lastSeq: nat, timestamp: string,
    commitId: string, manifestDigest: string, seal: Seal, events: seq<Json>)

  /** The pinned publication key. */
  datatype Pin = Pin(keyId: string, publicKey: string)

  /** The schemas with the checks of status and kind, the signature check under a pinned key, and the hash. */
  datatype FinalRules = FinalRules(
    consistent: FinalBatch -> bool, signed: (Pin, string, string) -> bool, sha: Hash)

  // ---------------------------------------------------------------- the digested texts

  const UNBOUND_KEYS: set<string> := {"seq", "publicationPayloadDigest"}

  /** Keys sort by UTF-16 units here. */
  function FinalText(v: Json): string {
    Canonical(v, Go, Utf16Units)
  }

  /** The digest of an event without its number and without the digest itself. */
  function PayloadDigest(event: Json, sha: Hash): string
    requires event.Obj?
  {
    sha(PlainText, FinalText(Obj(Without(event.fields, UNBOUND_KEYS))))
  }

  function Slots(n: nat): (r: seq<string>)
    ensures |r| >= 3 && (n == 4 ==> |r| == 4)
  {
    if n == 3 then ["assistant-final", "usage", "terminal"]
    else ["assistant-final", "terminal-error-item", "usage", "terminal"]
  }

  function FinalManifest(b: FinalBatch, sha: Hash): (r: seq<Entry>)
    requires InRange(b)
    ensures |r| == |b.events|
    ensures forall i :: 0 <= i < |r| ==> r[i] == Entry(Slots(|r|)[i], EventId(b.commitId, Slots(|r|)[i], sha),
                                                       PayloadDigest(b.events[i], sha))
  {
    var slots := Slots(|b.events|);
    seq(|b.events|, i requires 0 <= i < |b.events| =>
      Entry(slots[i], EventId(b.commitId, slots[i], sha), PayloadDigest(b.events[i], sha)))
  }

  function BatchIdKeys(): (r: seq<string>)
    ensures |r| == 7
  {
    ["purpose", "threadId", "turnId", "firstSeq", "lastSeq", "publicationCommitId", "eventManifestDigest"]
  }

  function BatchIdValues(b: FinalBatch): (r: seq<Json>)
    ensures |r| == 7 && Readable(r)
  {
    [ Str("analytix.accepted-final-delivery-batch/v2"), Str(b.threadId), Str(b.turnId), Number(b.firstSeq),
      Number(b.lastSeq), Str(b.commitId), Str(b.manifestDigest) ]
  }

  function SealKeys(): (r: seq<string>)
    ensures |r| == 18
  {
    [ "schemaVersion", "purpose", "sealId", "threadId", "turnId", "publicationCommitId",
      "acceptedFinalDispositionDigest", "terminalDispositionId", "eventManifestDigest", "sequencedEventsDigest",
      "batchId", "firstSeq", "lastSeq", "timestamp", "authorityAlgorithm", "authorityKeyId", "authorityPublicKey",
      "authoritySignature" ]
  }

  function SealValues(s: Seal): (r: seq<Json>)
    ensures |r| == 18 && Readable(r)
  {
    [ Number(s.schemaVersion), Str(s.purpose), Str(s.sealId), Str(s.threadId), Str(s.turnId), Str(s.commitId),
      Str(s.dispositionDigest), Str(s.dispositionId), Str(s.manifestDigest), Str(s.eventsDigest),
      Str(s.batchId), Number(s.firstSeq), Number(s.lastSeq), Str(s.timestamp), Str(s.algorithm), Str(s.keyId),
      Str(s.publicKey), Str(s.signature) ]
  }

  /** The seal as it is signed, and as it is identified. */
  function Unsigned(s: Seal): Seal { s.(signature := "") }

  function Unidentified(s: Seal): Seal { s.(signature := "", sealId := "") }

  function SealText(s: Seal): string {
    ObjectText(SealKeys(), SealValues(s))
  }

  // ---------------------------------------------------------------- what is checked

  predicate InRange(b: FinalBatch) {
    && b.seqNo == b.lastSeq && b.firstSeq > 0 && b.lastSeq >= b.firstSeq
    && (|b.events| == 3 || |b.events| == 4) && b.lastSeq - b.firstSeq + 1 == |b.events|
    && AreEvents(b.events)
  }

  /** An event at its place in the batch, with the slot, the id and the payload digest it must carry. */
  predicate EventBelongs(b: FinalBatch, i: nat, entry: Entry)
    requires i < |b.events|
  {
    var event := b.events[i];
    && Has(event, "threadId", Str(b.threadId)) && Has(event, "turnId", Str(b.turnId))
    && IsNumbered(event, b.firstSeq + i)
    && Has(event, "timestamp", Str(b.timestamp))
    && Has(event, "acceptedFinalDigest", Str(b.commitId)) && Has(event, "publicationCommitId", Str(b.commitId))
    && Has(event, "publicationSlot", Str(entry.slot))
    && Has(event, "publicationEventId", Str(entry.eventId))
    && Has(event, "publicationPayloadDigest", Str(entry.payloadDigest))
  }

  predicate CarriesItsHash(event: Json, sha: Hash) {
    event.Obj? && Has(event, "publicationPayloadDigest", Str(PayloadDigest(event, sha)))
  }

  ghost predicate AllCarryTheirHash(events: seq<Json>, sha: Hash) {
    forall i :: 0 <= i < |events| ==> CarriesItsHash(events[i], sha)
  }

  ghost predicate Occurs(events: seq<Json>, n: nat) {
    exists i :: 0 <= i < |events| && IsNumbered(events[i], n)
  }

  /** The numbers of the events are exactly those from `first` to `last`. */
  ghost predicate NumberedFrom(events: seq<Json>, first: nat, last: nat) {
    forall n: nat :: Occurs(events, n) <==> first <= n <= last
  }

  ghost predicate EventsBelong(b: FinalBatch, manifest: seq<Entry>) {
    |manifest| == |b.events| && forall i :: 0 <= i < |b.events| ==> EventBelongs(b, i, manifest[i])
  }

  predicate Identified(b: FinalBatch, sha: Hash)
    requires InRange(b)
  {
    && sha(PlainText, FinalText(Arr(EntryObjects(FinalManifest(b, sha))))) == b.manifestDigest
    && sha(PlainText, ObjectText(BatchIdKeys(), BatchIdValues(b))) == b.batchId
  }

  /** The seal names this batch and these events. */
  predicate SealNames(b: FinalBatch, sha: Hash) {
    var s := b.seal;
    && s.threadId == b.threadId && s.turnId == b.turnId && s.commitId == b.commitId
    && s.manifestDigest == b.manifestDigest && s.batchId == b.batchId
    && s.firstSeq == b.firstSeq && s.lastSeq == b.lastSeq && s.timestamp == b.timestamp
    && sha(PlainText, FinalText(Arr(b.events))) == s.eventsDigest
  }

  predicate SealHolds(s: Seal, pin: Pin, rules: FinalRules) {
    && s.keyId == pin.keyId && s.publicKey == pin.publicKey
    && rules.sha(SealIdentity, SealText(Unidentified(s))) == s.sealId
    && rules.signed(pin, SealText(Unsigned(s)), s.signature)
  }

  ghost predicate AcceptedBatch(b: FinalBatch, pin: Pin, rules: FinalRules) {
    && InRange(b) && rules.consistent(b)
    && EventsBelong(b, FinalManifest(b, rules.sha)) && Identified(b, rules.sha) && SealHolds(b.seal, pin, rules)
    && SealNames(b, rules.sha)
  }

  method VerifyEvents(b: FinalBatch, manifest: seq<Entry>) returns (ok: bool)
    requires |manifest| == |b.events|
    ensures ok <==> EventsBelong(b, manifest)
  {
    var index := 0;
    while index < |b.events|
      invariant index <= |b.events| && forall i :: 0 <= i < index ==> EventBelongs(b, i, manifest[i])
    {
      if !EventBelongs(b, index, manifest[index]) {
        return false;
      }
      index := index + 1;
    }
    return true;
  }

  /**
   What a caller gains: the numbers of the events are exactly firstSeq, ..., lastSeq, every event carries the
   hash of its own content, the seal names the hash of all of them, and its id is the hash of the seal.
   */
  method VerifyFinal(b: FinalBatch, pin: Pin, rules: FinalRules) returns (ok: bool)
    ensures ok <==> AcceptedBatch(b, pin, rules)
    ensures ok ==> NumberedFrom(b.events, b.firstSeq, b.lastSeq) && AllCarryTheirHash(b.events, rules.sha)
    ensures ok ==> rules.sha(PlainText, FinalText(Arr(b.events))) == b.seal.eventsDigest
                   && rules.sha(SealIdentity, SealText(Unidentified(b.seal))) == b.seal.sealId
                   && rules.signed(pin, SealText(Unsigned(b.seal)), b.seal.signature)
  {
    if !InRange(b) {
      return false;
    }
    ok := VerifyEvents(b, FinalManifest(b, rules.sha));
    ok := ok && rules.consistent(b) && Identified(b, rules.sha) && SealHolds(b.seal, pin, rules)
          && SealNames(b, rules.sha);
    if ok {
      AcceptedEvents(b, pin, rules);
    }
  }

  lemma AcceptedEvents(b: FinalBatch, pin: Pin, rules: FinalRules)
    requires AcceptedBatch(b, pin, rules)
    ensures NumberedFrom(b.events, b.firstSeq, b.lastSeq) && AllCarryTheirHash(b.events, rules.sha)
  {
    var manifest := FinalManifest(b, rules.sha);
    forall n: nat ensures Occurs(b.events, n) <==> b.firstSeq <= n <= b.lastSeq {
      FinalSequenceIsExact(b, manifest, n);
    }
    forall i | 0 <= i < |b.events| ensures CarriesItsHash(b.events[i], rules.sha) {
      assert EventBelongs(b, i, manifest[i]);
    }
  }

  // ---------------------------------------------------------------- what the ids bind

  lemma SealValuesDetermine(s: Seal, t: Seal)
    requires SealValues(s) == SealValues(t)
    ensures s == t
  {
    var x, y := SealValues(s), SealValues(t);
    assert x[0] == y[0] && x[1] == y[1] && x[2] == y[2] && x[3] == y[3] && x[4] == y[4] && x[5] == y[5];
    assert x[6] == y[6] && x[7] == y[7] && x[8] == y[8] && x[9] == y[9] && x[10] == y[10] && x[11] == y[11];
    assert x[12] == y[12] && x[13] == y[13] && x[14] == y[14] && x[15] == y[15] && x[16] == y[16] && x[17] == y[17];
    NumberInjective(s.schemaVersion, t.schemaVersion);
    NumberInjective(s.firstSeq, t.firstSeq);
    NumberInjective(s.lastSeq, t.lastSeq);
  }

  lemma SealIdBinds(s: Seal, t: Seal, sha: Hash)
    requires Injective(sha) && s.sealId == t.sealId
    requires sha(SealIdentity, SealText(Unidentified(s))) == s.sealId
    requires sha(SealIdentity, SealText(Unidentified(t))) == t.sealId
    ensures Unsigned(s) == Unsigned(t)
  {
    ObjectTextInjective(SealKeys(), SealValues(Unidentified(s)), SealValues(Unidentified(t)));
    SealValuesDetermine(Unidentified(s), Unidentified(t));
    assert Unsigned(s) == Unidentified(s).(sealId := s.sealId) && Unsigned(t) == Unidentified(t).(sealId := t.sealId);
  }

  lemma EventsDigestBinds(a: FinalBatch, b: FinalBatch, sha: Hash)
    requires Injective(sha) && AreEvents(a.events) && AreEvents(b.events)
    requires sha(PlainText, FinalText(Arr(a.events))) == sha(PlainText, FinalText(Arr(b.events)))
    ensures SameEvents(a.events, b.events)
  {
    EventsIdentified(a.events, b.events, Utf16Units);
  }

  /** Two accepted batches with the same seal id carry the same events and agree on every sealed field. */
  lemma SealBindsEvents(a: FinalBatch, b: FinalBatch, pin: Pin, rules: FinalRules)
    requires Injective(rules.sha) && AcceptedBatch(a, pin, rules) && AcceptedBatch(b, pin, rules)
    requires a.seal.sealId == b.seal.sealId
    ensures SameEvents(a.events, b.events)
    ensures a.(events := [], seal := Unsigned(a.seal)) == b.(events := [], seal := Unsigned(b.seal))
  {
    SealIdBinds(a.seal, b.seal, rules.sha);
    EventsDigestBinds(a, b, rules.sha);
  }

  /** What a batch id leaves open: the events, the timestamp and the seal. */
  lemma BatchIdValuesDetermine(a: FinalBatch, b: FinalBatch)
    requires BatchIdValues(a) == BatchIdValues(b)
    ensures a.threadId == b.threadId && a.turnId == b.turnId && a.firstSeq == b.firstSeq && a.lastSeq == b.lastSeq
    ensures a.commitId == b.commitId && a.manifestDigest == b.manifestDigest
  {
    var x, y := BatchIdValues(a), BatchIdValues(b);
    assert x[1] == y[1] && x[2] == y[2] && x[3] == y[3] && x[4] == y[4] && x[5] == y[5] && x[6] == y[6];
    NumberInjective(a.firstSeq, b.firstSeq);
    NumberInjective(a.lastSeq, b.lastSeq);
  }

  lemma ManifestBinds(a: seq<Entry>, b: seq<Entry>, sha: Hash)
    requires Injective(sha)
    requires sha(PlainText, FinalText(Arr(EntryObjects(a)))) == sha(PlainText, FinalText(Arr(EntryObjects(b))))
    ensures a == b
  {
    ManifestWellFormed(a);
    ManifestWellFormed(b);
    CanonicalIdentifies(Arr(EntryObjects(a)), Arr(EntryObjects(b)), Go, Utf16Units);
    assert |EntryObjects(a)| == |EntryObjects(b)|;
    forall i | 0 <= i < |a| ensures a[i] == b[i] {
      assert Same(EntryObjects(a)[i], EntryObjects(b)[i]);
      EntrySame(a[i], b[i]);
    }
  }

  lemma EntrySame(a: Entry, b: Entry)
    requires Same(Obj(EntryFields(a)), Obj(EntryFields(b)))
    ensures a == b
  {
    var x, y := EntryFields(a), EntryFields(b);
    assert x[0].key == y[0].key && x[1].key == y[1].key && x[2].key == y[2].key;
    assert Same(x[0].value, y[0].value) && Same(x[1].value, y[1].value) && Same(x[2].value, y[2].value);
  }

  /** Equal payload digests and equal numbers make events the same. */
  lemma PayloadBinds(v: Json, w: Json, n: nat, sha: Hash)
    requires Injective(sha) && v.Obj? && w.Obj? && WellFormed(v) && WellFormed(w)
    requires IsNumbered(v, n) && IsNumbered(w, n) && PayloadDigest(v, sha) == PayloadDigest(w, sha)
    requires Has(v, "publicationPayloadDigest", Str(PayloadDigest(v, sha)))
    requires Has(w, "publicationPayloadDigest", Str(PayloadDigest(w, sha)))
    ensures Same(v, w)
  {
    var a, b := Obj(Without(v.fields, UNBOUND_KEYS)), Obj(Without(w.fields, UNBOUND_KEYS));
    WithoutWellFormed(v.fields, UNBOUND_KEYS);
    WithoutWellFormed(w.fields, UNBOUND_KEYS);
    CanonicalIdentifies(a, b, Go, Utf16Units);
    assert AgreeAt(v, w, "seq") && AgreeAt(v, w, "publicationPayloadDigest");
    SameFromParts(v, w, UNBOUND_KEYS);
  }

  /** The batch id alone already determines the events, through the manifest and the payload digests. */
  lemma BatchIdBindsEvents(a: FinalBatch, b: FinalBatch, pin: Pin, rules: FinalRules)
    requires Injective(rules.sha) && AcceptedBatch(a, pin, rules) && AcceptedBatch(b, pin, rules)
    requires a.batchId == b.batchId
    ensures SameEvents(a.events, b.events)
    ensures a.threadId == b.threadId && a.turnId == b.turnId && a.commitId == b.commitId
    ensures a.firstSeq == b.firstSeq && a.lastSeq == b.lastSeq && a.manifestDigest == b.manifestDigest
  {
    ObjectTextInjective(BatchIdKeys(), BatchIdValues(a), BatchIdValues(b));
    BatchIdValuesDetermine(a, b);
    ManifestBinds(FinalManifest(a, rules.sha), FinalManifest(b, rules.sha), rules.sha);
    PayloadsBind(a, b, rules.sha);
  }

  lemma PayloadsBind(a: FinalBatch, b: FinalBatch, sha: Hash)
    requires Injective(sha) && InRange(a) && InRange(b) && a.firstSeq == b.firstSeq
    requires FinalManifest(a, sha) == FinalManifest(b, sha)
    requires EventsBelong(a, FinalManifest(a, sha)) && EventsBelong(b, FinalManifest(b, sha))
    ensures SameEvents(a.events, b.events)
  {
    var manifest := FinalManifest(a, sha);
    forall i | 0 <= i < |a.events| ensures Same(a.events[i], b.events[i]) {
      assert EventBelongs(a, i, manifest[i]) && EventBelongs(b, i, manifest[i]);
      PayloadBinds(a.events[i], b.events[i], a.firstSeq + i, sha);
    }
  }

  /** The events of an accepted batch are numbered exactly firstSeq, firstSeq + 1, ..., lastSeq. */
  lemma FinalSequenceIsExact(b: FinalBatch, manifest: seq<Entry>, n: nat)
    requires InRange(b) && EventsBelong(b, manifest)
    ensures b.firstSeq <= n <= b.lastSeq <==> exists i :: 0 <= i < |b.events| && IsNumbered(b.events[i], n)
  {
    forall i | 0 <= i < |b.events| ensures IsNumbered(b.events[i], b.firstSeq + i) {
      assert EventBelongs(b, i, manifest[i]);
    }
    NumberedExactly(b.events, b.firstSeq, n);
  }
}
