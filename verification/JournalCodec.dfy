/** Stable JSON satisfies the laws the journal needs of its file texts. */
module JournalCodec {
  import J = Json
  import opened JsonRoundTrip
  import opened JsonCanonical
  import opened RecordChain
  import JournalStore

  /**
   If records become JSON objects and back, then writing them as stable JSON and reading them with
   `JSON.parse` is lawful: whole texts read back, with or without the line end, and torn texts fail.
   */
  lemma StableJsonIsLawful(c: JournalStore.Codec, encode: Record -> J.Json, decode: J.Json -> J.Option<Record>)
    requires forall r: Record :: r.payload != Malformed ==>
               && encode(r).Obj? && J.WellFormed(encode(r))
               && decode(Normalize(encode(r), Utf16Units)) == J.Some(r)
               && c.format(r) == Canonical(encode(r), J.Plain, Utf16Units)
    requires forall s: string :: c.parse(s) == match J.Parse(s) { case Some(v) => decode(v) case None => J.None }
    ensures JournalStore.Lawful(c)
  {
    assert J.Parse("") == J.None;
    forall r: Record | r.payload != Malformed
      ensures c.parse(c.format(r)) == J.Some(r) && c.parse(c.format(r) + "\n") == J.Some(r)
    {
      ParseCanonical(encode(r), J.Plain, Utf16Units);
    }
    forall r: Record, n: nat | r.payload != Malformed && n < |c.format(r)|
      ensures c.parse(c.format(r)[..n]) == J.None
    {
      NormalizeWellFormed(encode(r), Utf16Units);
      TornObjectRefused(Normalize(encode(r), Utf16Units), J.Plain, n);
    }
  }
}
