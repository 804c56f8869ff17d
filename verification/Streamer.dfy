/**
 The Feishu streamer: events from the runtime, a producer that may be suspended at every await, and
 revocation at any moment. A schedule interleaves them in any order; the method `Run` takes one.
 */
module Streamer {
  import opened Json

  datatype State = Pending | Streaming | Boundary | Closed

  /** Where the producer is suspended. `Idle` is before the bridge calls it. */
  datatype Pc =
    | Unstarted | Idle | FirstCheck | Waiting | Got(chunk: Option<string>)
    | BeforeSet | Setting | AfterSet
    | ReplaceCheck | Replacing | ReplaceAfter | RecallCheck | Recalling | RecallAfter
    | Done

  datatype Outcome = Rejected | Completed(ok: bool, finalText: string)

  /** A final text waiting for its terminal event. */
  datatype Final = Final(
    text: string, acceptedFinalDigest: string, terminalReason: string, acceptedAt: string, itemSeq: nat,
    publicationEventId: string)

  /** How an event of the assistant-final slot fits: another item, an invalid one, or a candidate. */
  datatype Candidate = Foreign | Invalid | Good(final: Final)

  /** A terminal event; `bound` says that its publication fields are those of the digest. */
  datatype Terminal = Terminal(
    parses: bool, completed: bool, threadId: string, turnId: string, acceptedFinalDigest: string,
    terminalReason: string, timestamp: string, seqNo: nat, bound: bool)

  /** A batch that passed verification: its assistant-final slot comes first, its terminal slot last. */
  datatype Accepted = Accepted(threadId: string, turnId: string, final: Candidate, terminal: Terminal)

  datatype Event =
    | ProjectionRevoked(threadId: string)
    | Draft
    | FinalBatch(accepted: Option<Accepted>)
    | ItemCompleted(claimsFinal: bool)
    | TurnEnded(terminal: Terminal)
    | Other

  /** One step of a schedule, with what the outside world answers during it. */
  datatype Action =
    | Start(pinCurrent: bool)
    | Deliver(event: Event, pinCurrent: bool)
    | Abort
    | Dispose
    | SendFails
    | Resume(pinCurrent: bool, credentialCurrent: bool, threw: bool, canRecall: bool)

  predicate Forward(was: State, now: State) {
    match was
    case Pending => true
    case Streaming => now != Pending
    case Boundary => now == Boundary || now == Closed
    case Closed => now == Closed
  }

  /** Not a duplicate; the acceptance time is not compared. */
  predicate Differs(a: Final, b: Final) {
    a.(acceptedAt := "") != b.(acceptedAt := "")
  }

  predicate Matches(t: Terminal, f: Final, threadId: string, turnId: string) {
    && t.parses && t.threadId == threadId && t.turnId == turnId
    && t.acceptedFinalDigest == f.acceptedFinalDigest && t.terminalReason == f.terminalReason
    && t.timestamp == f.acceptedAt && t.seqNo > f.itemSeq && t.bound
  }

  /** What may be put on the channel: the boundary text, nothing, or one verified text. */
  ghost predicate Allowed(text: string, boundaryText: string, verified: set<string>) {
    text == boundaryText || text == "" || text in verified
  }

  ghost predicate AllAllowed(published: seq<string>, boundaryText: string, verified: set<string>) {
    forall i :: 0 <= i < |published| ==> Allowed(published[i], boundaryText, verified)
  }

  ghost predicate AllVerified(chunks: seq<Option<string>>, verified: set<string>) {
    forall i :: 0 <= i < |chunks| && chunks[i].Some? ==> chunks[i].value in verified
  }

  class FeishuStreamer {
    const threadId: string
    const turnId: string
    /** The fixed text that replaces a revoked message. */
    const boundaryText: string
    var state: State
    var outbox: seq<Option<string>>
    var accumulatedText: string
    var bufferedFinal: Option<Final>
    var failed: bool
    var terminalHandled: bool
    var pc: Pc
    var outcome: Option<Outcome>
    /** Every argument of `setContent`, in order. */
    var published: seq<string>
    /** The final texts of the batches verified for this thread and turn. */
    ghost var verified: set<string>
    /** `start` was called on a streamer that was already closed. */
    ghost var closedAtStart: bool

    /** What the producer has not consumed yet. */
    function Unread(): seq<Option<string>>
      reads this
    {
      (if pc.Got? then [pc.chunk] else []) + outbox
    }

    /** How far the one final text has travelled: on its way, appended, or appended with the queue drained. */
    predicate Travelling()
      reads this
    {
      && bufferedFinal.None?
      && if accumulatedText == "" then
           && (pc == Idle || pc == FirstCheck || pc.Got?)
           && |Unread()| == 2 && Unread()[0].Some? && Unread()[0].value != "" && Unread()[1].None?
         else
           (pc == Got(None) && outbox == []) || ((pc == BeforeSet || pc == Setting || pc == AfterSet) && outbox == [])
    }

    ghost predicate Valid()
      reads this
    {
      && AllVerified(outbox, verified)
      && (pc.Got? && pc.chunk.Some? ==> pc.chunk.value in verified)
      && (bufferedFinal.Some? ==> bufferedFinal.value.text in verified && state == Streaming && !terminalHandled)
      && (accumulatedText != "" ==> accumulatedText in verified)
      && AllAllowed(published, boundaryText, verified)
      && (outcome.Some? && outcome.value.Completed? ==> Honest(outcome.value))
      && ByState()
    }

    ghost predicate ByState()
      reads this
    {
      && (pc == Unstarted ==> outcome.None? && !closedAtStart && state != Streaming)
      && (closedAtStart ==> state == Closed && accumulatedText == "")
      && match state
         case Pending => pc == Unstarted && outbox == [] && accumulatedText == ""
         case Streaming =>
           && pc != Done
           && if terminalHandled then Travelling()
              else !failed && outbox == [] && accumulatedText == "" && (pc == Idle || pc == FirstCheck || pc == Waiting)
         case Boundary => outbox == [] && accumulatedText == "" && pc != Waiting && pc != Done
         case Closed =>
           pc != Waiting && (pc != Done ==> accumulatedText == "" && (pc == Unstarted || failed || closedAtStart))
    }

    /** A success carries a verified text, unless the streamer was closed before it was started. */
    ghost predicate Honest(o: Outcome)
      requires o.Completed?
      reads this
    {
      o.ok ==> if closedAtStart then o.finalText == "" else o.finalText != "" && o.finalText in verified
    }

    constructor (threadId: string, turnId: string, boundaryText: string)
      ensures Valid() && state == Pending && pc == Unstarted && published == [] && outcome.None?
      ensures this.threadId == threadId && this.turnId == turnId && this.boundaryText == boundaryText
    {
      this.threadId, this.turnId, this.boundaryText := threadId, turnId, boundaryText;
      state, outbox, accumulatedText, bufferedFinal := Pending, [], "", None;
      failed, terminalHandled, pc, outcome, published := false, false, Unstarted, None, [];
      verified, closedAtStart := {}, false;
    }

    /** Forgets every text and wakes the producer; a closed streamer stays as it is. */
    method EnterBoundaryState()
      requires Valid()
      modifies this`state, this`failed, this`terminalHandled, this`accumulatedText, this`bufferedFinal, this`outbox,
               this`pc
      ensures Valid()
      ensures old(state) == Closed ==> state == Closed && accumulatedText == old(accumulatedText) && pc == old(pc)
                                       && failed == old(failed)
      ensures old(state) != Closed ==> state == Boundary && failed && terminalHandled && accumulatedText == ""
      ensures old(state) != Closed ==> outbox == [] && bufferedFinal.None?
      ensures pc == if old(state) != Closed && old(pc) == Waiting then Got(None) else old(pc)
    {
      if state == Closed {
        return;
      }
      failed, terminalHandled, state := true, true, Boundary;
      accumulatedText, bufferedFinal, outbox := "", None, [];
      pc := if pc == Waiting then Got(None) else pc;
      assert ByState();
    }

    /** A waiting producer takes the chunk at once; otherwise it is queued. */
    method Push(chunk: Option<string>)
      requires pc == Waiting ==> outbox == []
      modifies this`pc, this`outbox
      ensures Unread() == old(Unread()) + [chunk]
      ensures pc == if old(pc) == Waiting then Got(chunk) else old(pc)
      ensures outbox == if old(pc) == Waiting then [] else old(outbox) + [chunk]
    {
      if pc == Waiting {
        pc := Got(chunk);
      } else {
        outbox := outbox + [chunk];
      }
    }

    method BufferAssistantFinal(c: Candidate)
      requires Valid() && state == Streaming && !terminalHandled
      requires c.Good? ==> c.final.text in verified
      modifies this`state, this`failed, this`terminalHandled, this`accumulatedText, this`bufferedFinal, this`outbox,
               this`pc
      ensures Valid()
      ensures state ==
              if c.Invalid? || (c.Good? && old(bufferedFinal).Some? && Differs(old(bufferedFinal).value, c.final))
                       then Boundary else Streaming
      ensures state == Streaming ==> !terminalHandled && !failed && pc == old(pc)
      ensures pc != Unstarted
      ensures state == Streaming ==>
                bufferedFinal == if c.Good? && old(bufferedFinal).None? then Some(c.final) else old(bufferedFinal)
    {
      if c.Invalid? {
        EnterBoundaryState();
      } else if c.Good? {
        if bufferedFinal.Some? {
          if Differs(bufferedFinal.value, c.final) {
            EnterBoundaryState();
          }
        } else {
          bufferedFinal := Some(c.final);
        }
      }
    }

    /** Releases the buffered text to the producer, or revokes everything. */
    method FinishTerminal(t: Terminal, pinCurrent: bool)
      requires Valid() && (state == Boundary || (state == Streaming && !terminalHandled))
      modifies this`state, this`failed, this`terminalHandled, this`accumulatedText, this`bufferedFinal, this`outbox,
               this`pc
      ensures Valid() && bufferedFinal.None? && terminalHandled && (old(pc) != Unstarted ==> pc != Unstarted)
      ensures var final := old(bufferedFinal);
              if pinCurrent && final.Some? && final.value.text != "" && Matches(t, final.value, threadId, turnId) then
                && state == Streaming && failed == !t.completed
                && Unread() == [Some(final.value.text), None]
                && pc == (if old(pc) == Waiting then Got(Some(final.value.text)) else old(pc))
              else state == Boundary && failed
    {
      var final := bufferedFinal;
      if !pinCurrent || final.None? || final.value.text == "" || !Matches(t, final.value, threadId, turnId) {
        EnterBoundaryState();
        return;
      }
      failed := !t.completed;
      terminalHandled := true;
      bufferedFinal := None;
      Push(Some(final.value.text));
      Push(None);
    }

    /** A verified batch: foreign ones revoke, others buffer their final text and finish at once. */
    method OnBatch(batch: Accepted, pinCurrent: bool)
      requires Valid() && bufferedFinal.None? && state == Streaming && !terminalHandled
      modifies this`state, this`failed, this`terminalHandled, this`accumulatedText, this`bufferedFinal, this`outbox,
               this`pc, this`verified
      ensures Valid() && bufferedFinal.None? && pc != Unstarted && old(verified) <= verified
      ensures state == Streaming || state == Boundary
      ensures state == Streaming ==> accumulatedText == old(accumulatedText)
      ensures pinCurrent && Delivers(FinalBatch(Some(batch))) ==>
                && state == Streaming && terminalHandled && failed == !batch.terminal.completed
                && Unread() == [Some(batch.final.final.text), None]
                && pc == (if old(pc) == Waiting then Got(Some(batch.final.final.text)) else old(pc))
                && batch.final.final.text in verified
    {
      if batch.threadId != threadId || batch.turnId != turnId {
        EnterBoundaryState();
        return;
      }
      if batch.final.Good? {
        verified := verified + {batch.final.final.text};
      }
      BufferAssistantFinal(batch.final);
      FinishTerminal(batch.terminal, pinCurrent);
    }

    /** An event from the runtime. */
    method OnSseEvent(event: Event, pinCurrent: bool)
      requires Valid() && bufferedFinal.None?
      modifies this`state, this`failed, this`terminalHandled, this`accumulatedText, this`bufferedFinal, this`outbox,
               this`pc, this`verified
      ensures Valid() && bufferedFinal.None? && Forward(old(state), state) && old(verified) <= verified
      ensures old(pc) != Unstarted ==> pc != Unstarted
      ensures event == ProjectionRevoked(threadId) && old(state) != Closed ==> state == Boundary
      ensures old(state) == Streaming && !pinCurrent ==> state == Boundary
      ensures old(state) == Streaming && old(terminalHandled) && state == Streaming ==> Unread() == old(Unread())
      ensures state == Streaming ==> accumulatedText == old(accumulatedText)
      ensures old(state) == Streaming && !old(terminalHandled) && pinCurrent && Delivers(event) ==>
                && state == Streaming && terminalHandled && failed == !event.accepted.value.terminal.completed
                && Unread() == [Some(event.accepted.value.final.final.text), None]
                && pc == (if old(pc) == Waiting then Got(Some(event.accepted.value.final.final.text)) else old(pc))
                && event.accepted.value.final.final.text in verified
    {
      if event == ProjectionRevoked(threadId) {
        EnterBoundaryState();
        return;
      }
      if state != Streaming {
        return;
      }
      if !pinCurrent {
        EnterBoundaryState();
        return;
      }
      if event.Draft? || terminalHandled {
        return;
      }
      match event
      case FinalBatch(None) => EnterBoundaryState();
      case FinalBatch(Some(batch)) => OnBatch(batch, pinCurrent);
      case ItemCompleted(claimsFinal) =>
        if claimsFinal {
          EnterBoundaryState();
        }
      case TurnEnded(terminal) =>
        if terminal.threadId == threadId && terminal.turnId == turnId {
          FinishTerminal(terminal, pinCurrent);
        }
      case _ =>
    }

    /** A batch of this turn whose terminal event belongs to its final text. */
    predicate Delivers(event: Event) {
      && event.FinalBatch? && event.accepted.Some?
      && var batch := event.accepted.value;
      && batch.threadId == threadId && batch.turnId == turnId && batch.final.Good? && batch.final.final.text != ""
      && Matches(batch.terminal, batch.final.final, threadId, turnId)
    }

    method StartStream(pinCurrent: bool)
      requires Valid() && pc == Unstarted && bufferedFinal.None?
      modifies this
      ensures Valid() && bufferedFinal.None? && pc == Idle && Forward(old(state), state) && outcome.None?
      ensures closedAtStart <==> old(state) == Closed
      ensures old(state) == Closed ==> state == Closed && accumulatedText == "" && !failed
      ensures old(state) == Pending && pinCurrent ==> state == Streaming && !terminalHandled && !failed
      ensures published == old(published) && verified == old(verified)
    {
      failed, terminalHandled := false, false;
      closedAtStart := state == Closed;
      pc := Idle;
      if state == Pending {
        state := Streaming;
      }
      if !pinCurrent {
        EnterBoundaryState();
      }
    }

    method AbortNow()
      requires Valid()
      modifies this`state, this`failed, this`terminalHandled, this`accumulatedText, this`bufferedFinal, this`outbox,
               this`pc
      ensures Valid() && state == if old(state) == Closed then Closed else Boundary
      ensures pc == (if old(state) != Closed && old(pc) == Waiting then Got(None) else old(pc))
      ensures if old(state) == Closed then failed == old(failed) && accumulatedText == old(accumulatedText)
              else failed && accumulatedText == "" && outbox == [] && bufferedFinal.None?
      ensures old(bufferedFinal).None? ==> bufferedFinal.None?
    {
      EnterBoundaryState();
    }

    method DisposeNow()
      requires Valid()
      modifies this`state, this`failed, this`terminalHandled, this`accumulatedText, this`bufferedFinal, this`outbox,
               this`pc
      ensures Valid() && state == Closed && (old(state) != Closed ==> accumulatedText == "")
      ensures pc == Unstarted <==> old(pc) == Unstarted
      ensures bufferedFinal.None?
    {
      AbortNow();
      state := Closed;
    }

    /** Settles the result once; later attempts have no effect. */
    method Complete(o: Outcome)
      modifies this`outcome
      ensures outcome == if old(outcome).Some? then old(outcome) else Some(o)
    {
      if outcome.None? {
        outcome := Some(o);
      }
    }

    /** The bridge refused or its credential changed: everything is revoked and the promise rejected. */
    method SendFailed()
      requires Valid() && pc != Unstarted && bufferedFinal.None?
      modifies this`state, this`failed, this`terminalHandled, this`accumulatedText, this`bufferedFinal, this`outbox,
               this`pc, this`outcome
      ensures Valid() && bufferedFinal.None? && Forward(old(state), state) && pc != Unstarted
      ensures outcome == if old(outcome).Some? then old(outcome) else Some(Rejected)
    {
      AbortNow();
      Complete(Rejected);
    }

    /** Ends the producer: the streamer is closed and the result is settled. */
    method Finish(ok: bool, finalText: string)
      requires Valid() && pc != Unstarted && bufferedFinal.None?
      requires Honest(Completed(ok, finalText))
      modifies this`state, this`pc, this`outcome
      ensures Valid() && pc == Done && state == Closed
      ensures outcome == if old(outcome).Some? then old(outcome) else Some(Completed(ok, finalText))
    {
      state, pc := Closed, Done;
      Complete(Completed(ok, finalText));
    }

    method SetContent(text: string)
      requires Valid() && Allowed(text, boundaryText, verified)
      modifies this`published
      ensures Valid() && published == old(published) + [text]
    {
      published := published + [text];
    }

    /** The head of the producer's loop, up to its next await. */
    method NextChunk(pinCurrent: bool)
      requires bufferedFinal.None? && (pc == FirstCheck || pc.Got?)
      requires ReadyToRead()
      modifies this`state, this`failed, this`terminalHandled, this`accumulatedText, this`bufferedFinal, this`outbox,
               this`pc
      ensures Valid() && bufferedFinal.None? && Forward(old(state), state)
      ensures old(state) == Streaming ==> state == Streaming && accumulatedText == old(accumulatedText)
                                          && failed == old(failed) && terminalHandled == old(terminalHandled)
      ensures old(state) == Streaming && old(outbox) == [] ==> pc == Waiting && outbox == []
      ensures old(state) == Streaming && old(outbox) != [] ==> pc == Got(old(outbox)[0]) && outbox == old(outbox)[1..]
      ensures old(state) != Streaming ==> pc == if state == Boundary then ReplaceCheck else BeforeSet
      ensures old(state) == Closed ==> accumulatedText == old(accumulatedText) && failed == old(failed)
    {
      if state == Streaming {
        if outbox != [] {
          pc, outbox := Got(outbox[0]), outbox[1..];
        } else {
          pc := Waiting;
        }
      } else {
        pc := BeforeSet;
        LeaveLoop(pinCurrent);
      }
    }

    /** What holds where the producer asks for the next chunk: it has none in its hands. */
    ghost predicate ReadyToRead()
      reads this
    {
      && AllVerified(outbox, verified)
      && (accumulatedText != "" ==> accumulatedText in verified)
      && AllAllowed(published, boundaryText, verified)
      && (outcome.Some? && outcome.value.Completed? ==> Honest(outcome.value))
      && (closedAtStart ==> state == Closed && accumulatedText == "")
      && match state
         case Pending => false
         case Streaming =>
           if !terminalHandled then !failed && outbox == [] && accumulatedText == ""
           else if accumulatedText == "" then
             |outbox| == 2 && outbox[0].Some? && outbox[0].value != "" && outbox[1].None?
           else outbox == [None]
         case Boundary => outbox == [] && accumulatedText == ""
         case Closed => accumulatedText == "" && (failed || closedAtStart)
    }

    /** After the loop: the pinned key is checked, and a revoked stream goes to its replacement. */
    method LeaveLoop(pinCurrent: bool)
      requires Valid() && bufferedFinal.None? && pc == BeforeSet
      modifies this`state, this`failed, this`terminalHandled, this`accumulatedText, this`bufferedFinal, this`outbox,
               this`pc
      ensures Valid() && bufferedFinal.None? && Forward(old(state), state)
      ensures pc == if state == Boundary then ReplaceCheck else BeforeSet
      ensures pinCurrent || old(state) == Closed ==>
                state == old(state) && accumulatedText == old(accumulatedText) && failed == old(failed)
      ensures !pinCurrent && old(state) != Closed ==> state == Boundary
    {
      if !pinCurrent {
        EnterBoundaryState();
      }
      if state == Boundary {
        pc := ReplaceCheck;
      }
    }

    /** Before the text is set: the producer starts, passes its first check, or takes a chunk. */
    method ResumeReading(pinCurrent: bool, credentialCurrent: bool)
      requires Valid() && bufferedFinal.None? && (pc == Idle || pc == FirstCheck || pc.Got?)
      modifies this`state, this`failed, this`terminalHandled, this`accumulatedText, this`bufferedFinal, this`outbox,
               this`pc, this`outcome
      ensures Valid() && bufferedFinal.None? && pc != Unstarted && Forward(old(state), state)
      ensures old(outcome).Some? ==> outcome == old(outcome)
      ensures pc == Done ==> state == Closed && outcome.Some?
      ensures old(pc) == Idle ==> pc == FirstCheck && state == old(state) && accumulatedText == old(accumulatedText)
                                  && outbox == old(outbox) && failed == old(failed)
                                  && terminalHandled == old(terminalHandled)
      ensures old(pc) == FirstCheck && credentialCurrent && old(state) == Streaming ==>
                && state == Streaming && terminalHandled == old(terminalHandled) && failed == old(failed)
                && accumulatedText == old(accumulatedText)
                && if old(outbox) == [] then pc == Waiting && outbox == []
                   else pc == Got(old(outbox)[0]) && outbox == old(outbox)[1..]
      ensures old(pc).Got? && old(pc).chunk.Some? && old(state) == Streaming ==>
                && state == Streaming && failed == old(failed) && accumulatedText == old(pc).chunk.value
                && pc == Got(None) && outbox == []
      ensures old(pc) == Got(None) && old(state) == Streaming && pinCurrent ==>
                pc == BeforeSet && state == Streaming && accumulatedText == old(accumulatedText)
                    && failed == old(failed)
      ensures old(pc) == FirstCheck && credentialCurrent && old(state) == Closed ==>
                pc == BeforeSet && state == Closed && accumulatedText == old(accumulatedText) && failed == old(failed)
      ensures old(pc) != FirstCheck || credentialCurrent ==> outcome == old(outcome)
    {
      if pc == Idle {
        pc := FirstCheck;
      } else if pc.Got? {
        TakeChunk(pc.chunk, pinCurrent);
      } else if credentialCurrent {
        NextChunk(pinCurrent);
      } else {
        Finish(false, "");
      }
    }

    /** The text is set once, after a look at the credential and before another. */
    method ResumeSetting(pinCurrent: bool, credentialCurrent: bool, threw: bool)
      requires Valid() && bufferedFinal.None? && (pc == BeforeSet || pc == Setting || pc == AfterSet)
      modifies this`state, this`failed, this`terminalHandled, this`accumulatedText, this`bufferedFinal, this`outbox,
               this`pc, this`outcome, this`published
      ensures Valid() && bufferedFinal.None? && pc != Unstarted && Forward(old(state), state)
      ensures published ==
              old(published) + if old(pc) == BeforeSet && credentialCurrent then [old(accumulatedText)] else []
      ensures old(outcome).Some? ==> outcome == old(outcome)
      ensures pc == Done ==> state == Closed && outcome.Some?
      ensures old(pc) == BeforeSet && credentialCurrent ==>
                pc == Setting && state == old(state) && accumulatedText == old(accumulatedText) && failed == old(failed)
      ensures old(pc) == Setting && !threw ==>
                pc == AfterSet && state == old(state) && accumulatedText == old(accumulatedText)
                    && failed == old(failed)
      ensures old(pc) == Setting || (old(pc) == BeforeSet && credentialCurrent) ==> outcome == old(outcome)
      ensures (old(pc) == AfterSet && credentialCurrent && old(outcome).None?
               && (old(state) == Closed || (old(state) != Boundary && pinCurrent))) ==>
                pc == Done && outcome == Some(Completed(!old(failed), old(accumulatedText)))
    {
      if pc == BeforeSet && credentialCurrent {
        SetContent(accumulatedText);
        pc := Setting;
      } else if pc == Setting {
        ContentSet(threw);
      } else if pc == AfterSet && credentialCurrent {
        Conclude(pinCurrent);
      } else {
        Finish(false, "");
      }
    }

    /** The producer goes on from the await it was suspended at, to the next one. */
    method ResumeProducer(pinCurrent: bool, credentialCurrent: bool, threw: bool, canRecall: bool)
      requires Valid() && bufferedFinal.None? && pc != Unstarted && pc != Waiting && pc != Done
      modifies this`state, this`failed, this`terminalHandled, this`accumulatedText, this`bufferedFinal, this`outbox,
               this`pc, this`outcome, this`published
      ensures Valid() && bufferedFinal.None? && pc != Unstarted && Forward(old(state), state)
      ensures published == old(published)
                           + (if old(pc) == BeforeSet && credentialCurrent then [old(accumulatedText)]
                              else if old(pc) == ReplaceCheck && credentialCurrent then [boundaryText] else [])
      ensures old(outcome).Some? ==> outcome == old(outcome)
      ensures pc == Done ==> state == Closed && outcome.Some?
    {
      if pc == Idle || pc == FirstCheck || pc.Got? {
        ResumeReading(pinCurrent, credentialCurrent);
      } else if pc == BeforeSet || pc == Setting || pc == AfterSet {
        ResumeSetting(pinCurrent, credentialCurrent, threw);
      } else {
        Replace(credentialCurrent, threw, canRecall);
      }
    }

    method ContentSet(threw: bool)
      requires Valid() && bufferedFinal.None? && pc == Setting
      modifies this`state, this`failed, this`terminalHandled, this`accumulatedText, this`bufferedFinal, this`outbox,
               this`pc
      ensures Valid() && bufferedFinal.None? && Forward(old(state), state)
      ensures pc == if threw then ReplaceCheck else AfterSet
      ensures !threw ==> state == old(state) && accumulatedText == old(accumulatedText) && failed == old(failed)
      ensures threw && old(state) != Closed ==> state == Boundary
    {
      if threw {
        EnterBoundaryState();
        pc := ReplaceCheck;
      } else {
        pc := AfterSet;
      }
    }

    /** After the text is set: a last look at the pinned key, then the result. */
    method Conclude(pinCurrent: bool)
      requires Valid() && bufferedFinal.None? && pc == AfterSet
      modifies this`state, this`failed, this`terminalHandled, this`accumulatedText, this`bufferedFinal, this`outbox,
               this`pc, this`outcome
      ensures Valid() && bufferedFinal.None? && Forward(old(state), state)
      ensures if old(state) == Boundary || (old(state) != Closed && !pinCurrent)
              then pc == ReplaceCheck && state == Boundary && outcome == old(outcome)
              else pc == Done && state == Closed
                   && outcome == if old(outcome).Some? then old(outcome)
                                 else Some(Completed(!old(failed), old(accumulatedText)))
    {
      if !pinCurrent {
        EnterBoundaryState();
      }
      if state == Boundary {
        pc := ReplaceCheck;
      } else {
        Finish(!failed, accumulatedText);
      }
    }

    method TakeChunk(chunk: Option<string>, pinCurrent: bool)
      requires Valid() && bufferedFinal.None? && pc == Got(chunk)
      modifies this`state, this`failed, this`terminalHandled, this`accumulatedText, this`bufferedFinal, this`outbox,
               this`pc
      ensures Valid() && bufferedFinal.None? && pc != Unstarted && pc != Done && Forward(old(state), state)
      ensures chunk.Some? && old(state) == Streaming ==>
                && state == Streaming && failed == old(failed) && accumulatedText == chunk.value
                && pc == Got(None) && outbox == []
      ensures chunk.None? && old(state) == Streaming && pinCurrent ==>
                pc == BeforeSet && state == Streaming && accumulatedText == old(accumulatedText)
                    && failed == old(failed)
    {
      if chunk.None? || state != Streaming {
        pc := BeforeSet;
        LeaveLoop(pinCurrent);
      } else {
        assert "" + chunk.value == chunk.value;
        accumulatedText := accumulatedText + chunk.value;
        NextChunk(pinCurrent);
      }
    }

    /** Replaces a revoked message by the boundary text, or recalls it; every way ends without success. */
    method Replace(credentialCurrent: bool, threw: bool, canRecall: bool)
      requires Valid() && bufferedFinal.None?
      requires pc == ReplaceCheck || pc == Replacing || pc == ReplaceAfter || pc == RecallCheck || pc == Recalling
               || pc == RecallAfter
      modifies this`state, this`pc, this`outcome, this`published
      ensures Valid() && pc != Unstarted && Forward(old(state), state)
      ensures published == old(published) + if old(pc) == ReplaceCheck && credentialCurrent then [boundaryText] else []
      ensures if pc == Done then state == Closed && outcome.Some? else state == old(state) && outcome == old(outcome)
      ensures old(outcome).Some? ==> outcome == old(outcome)
      ensures old(outcome).None? && pc == Done ==> outcome == Some(Completed(false, boundaryText))
    {
      if pc == ReplaceCheck && credentialCurrent {
        SetContent(boundaryText);
        pc := Replacing;
      } else if pc == Replacing && !threw {
        pc := ReplaceAfter;
      } else if pc == Replacing && canRecall {
        pc := RecallCheck;
      } else if pc == RecallCheck && credentialCurrent {
        pc := Recalling;
      } else if pc == Recalling && !threw {
        pc := RecallAfter;
      } else {
        Finish(false, boundaryText);
      }
    }

    /** Whether an action can happen: `start` is called once, and a waiting producer is woken by others only. */
    predicate Enabled(a: Action)
      reads this
    {
      match a
      case Start(_) => pc == Unstarted
      case SendFails => pc != Unstarted
      case Resume(_, _, _, _) => pc != Unstarted && pc != Waiting && pc != Done
      case _ => true
    }

    method Act(a: Action)
      requires Valid() && bufferedFinal.None? && Enabled(a)
      modifies this
      ensures Valid() && bufferedFinal.None? && Forward(old(state), state) && old(verified) <= verified
      ensures old(published) <= published && (old(outcome).Some? ==> outcome == old(outcome))
      ensures old(pc) != Unstarted ==> pc != Unstarted
      ensures closedAtStart == if a.Start? then old(state) == Closed else old(closedAtStart)
    {
      match a
      case Start(pinCurrent) => StartStream(pinCurrent);
      case Deliver(event, pinCurrent) => OnSseEvent(event, pinCurrent);
      case Abort => AbortNow();
      case Dispose => DisposeNow();
      case SendFails => SendFailed();
      case Resume(pinCurrent, credentialCurrent, threw, canRecall) =>
        ResumeProducer(pinCurrent, credentialCurrent, threw, canRecall);
    }

    /**
     Any schedule at all. Nothing but the boundary text, the empty text or a verified final text is
     ever put on the channel, and a success carries such a text unless the streamer was closed first.
     */
    method Run(schedule: seq<Action>)
      requires Valid() && bufferedFinal.None?
      modifies this
      ensures Valid() && bufferedFinal.None? && Forward(old(state), state)
      ensures AllAllowed(published, boundaryText, verified)
      ensures outcome.Some? && outcome.value.Completed? && outcome.value.ok ==>
                (outcome.value.finalText != "" && outcome.value.finalText in verified <==> !closedAtStart)
      ensures old(published) <= published && (old(outcome).Some? ==> outcome == old(outcome))
      ensures old(state) != Closed && old(pc) != Unstarted ==> closedAtStart == old(closedAtStart)
    {
      for n := 0 to |schedule|
        invariant Valid() && bufferedFinal.None? && Forward(old(state), state)
        invariant old(published) <= published && (old(outcome).Some? ==> outcome == old(outcome))
        invariant old(pc) != Unstarted ==> pc != Unstarted && closedAtStart == old(closedAtStart)
      {
        if Enabled(schedule[n]) {
          Act(schedule[n]);
        }
      }
    }
  }

  /** A turn that goes well: the verified text is set once and reported. */
  method HappyPath(threadId: string, turnId: string, boundaryText: string, batch: Accepted) returns (s: FeishuStreamer)
    requires batch.threadId == threadId && batch.turnId == turnId && batch.terminal.completed
    requires batch.final.Good? && batch.final.final.text != ""
    requires Matches(batch.terminal, batch.final.final, threadId, turnId)
    ensures fresh(s) && s.published == [batch.final.final.text]
    ensures s.outcome == Some(Completed(true, batch.final.final.text))
  {
    s := new FeishuStreamer(threadId, turnId, boundaryText);
    s.StartStream(true);
    s.ResumeReading(true, true);
    s.ResumeReading(true, true);
    ReadFinal(s, batch);
    PublishFinal(s);
  }

  method ReadFinal(s: FeishuStreamer, batch: Accepted)
    requires s.Valid() && s.state == Streaming && s.pc == Waiting && s.bufferedFinal.None? && !s.terminalHandled
    requires s.Delivers(FinalBatch(Some(batch)))
    modifies s`state, s`failed, s`terminalHandled, s`accumulatedText, s`bufferedFinal, s`outbox, s`pc, s`verified,
             s`outcome
    ensures s.Valid() && s.bufferedFinal.None? && s.state == Streaming && s.pc == BeforeSet
            && s.outcome == old(s.outcome)
    ensures s.accumulatedText == batch.final.final.text && s.failed == !batch.terminal.completed
  {
    s.OnSseEvent(FinalBatch(Some(batch)), true);
    s.ResumeReading(true, true);
    s.ResumeReading(true, true);
  }

  method PublishFinal(s: FeishuStreamer)
    requires s.Valid() && s.pc == BeforeSet && s.bufferedFinal.None? && s.outcome.None? && s.state != Boundary
    modifies s`state, s`failed, s`terminalHandled, s`accumulatedText, s`bufferedFinal, s`outbox, s`pc, s`outcome,
             s`published
    ensures s.published == old(s.published) + [old(s.accumulatedText)]
    ensures s.outcome == Some(Completed(!old(s.failed), old(s.accumulatedText)))
  {
    s.ResumeSetting(true, true, false);
    s.ResumeSetting(true, true, false);
    s.ResumeSetting(true, true, false);
  }

  /** Starting a disposed streamer reports a success that carries no text, whatever the pinned key. */
  method StartAfterDispose(threadId: string, turnId: string, boundaryText: string, pinCurrent: bool)
    returns (s: FeishuStreamer)
    ensures fresh(s) && s.closedAtStart
    ensures s.published == [""] && s.outcome == Some(Completed(true, ""))
  {
    s := new FeishuStreamer(threadId, turnId, boundaryText);
    s.DisposeNow();
    s.StartStream(pinCurrent);
    s.ResumeReading(pinCurrent, true);
    s.ResumeReading(pinCurrent, true);
    PublishFinal(s);
  }
}
