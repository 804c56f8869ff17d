/**
 The handoff of a stopped runtime to its restart after a settings change: a receipt is issued before the
 stop, confirmed once no child is left, and may start one runtime unless it was cancelled. Starting
 awaits a port, so any other step can come in between.
 */
module StopHandoff {
  import opened Json

  /** The number stands for the identity of the receipt object. */
  datatype Receipt = Receipt(id: nat, child: nat, generation: nat, cancelEpoch: nat)

  /** Where a call of `startAfterPort` is suspended. */
  datatype Call = AtPort(receipt: Receipt) | Starting(receipt: Receipt)

  datatype Event =
    | Confirmed(receipt: Receipt) | Started(receipt: Receipt) | Failed(receipt: Receipt) | Finished(receipt: Receipt)
    | Cancelled

  // ---------------------------------------------------------------- what the log of events says

  /** What ends a receipt: a cancellation, its start that has returned well, or the confirmation of another stop. */
  predicate Ends(e: Event, r: Receipt) {
    e == Cancelled || e == Finished(r) || e.Confirmed?
  }

  /** Confirmed at `from`, and ended by nothing until `to`. */
  ghost predicate GoodFrom(log: seq<Event>, r: Receipt, from: nat, to: nat) {
    && from < to <= |log| && log[from] == Confirmed(r)
    && forall k :: from < k < to ==> !Ends(log[k], r)
  }

  ghost predicate StillGood(log: seq<Event>, r: Receipt, to: nat) {
    exists from :: GoodFrom(log, r, from, to)
  }

  ghost predicate WasConfirmed(log: seq<Event>, r: Receipt, before: nat) {
    exists i :: 0 <= i < before && i < |log| && log[i] == Confirmed(r)
  }

  predicate SameConfirmation(a: Event, b: Event) {
    a.Confirmed? && b.Confirmed? && a.receipt.id == b.receipt.id
  }

  ghost predicate EventSound(log: seq<Event>, i: nat, issued: nat)
    requires i < |log|
  {
    match log[i]
    case Confirmed(r) => r.id < issued
    case Started(r) => StillGood(log, r, i)
    case Failed(r) => WasConfirmed(log, r, i)
    case Finished(r) => WasConfirmed(log, r, i)
    case Cancelled => true
  }

  ghost predicate LogSound(log: seq<Event>, issued: nat) {
    && (forall i :: 0 <= i < |log| ==> EventSound(log, i, issued))
    && (forall i, j :: 0 <= i < j < |log| ==> !SameConfirmation(log[i], log[j]))
  }

  /** The past of a log that grows. */
  lemma PastStays(log: seq<Event>, r: Receipt, to: nat, e: Event)
    requires to <= |log|
    ensures StillGood(log + [e], r, to) <==> StillGood(log, r, to)
    ensures WasConfirmed(log + [e], r, to) <==> WasConfirmed(log, r, to)
  {
    assert forall i :: 0 <= i < to ==> (log + [e])[i] == log[i];
    assert forall from: nat :: GoodFrom(log, r, from, to) <==> GoodFrom(log + [e], r, from, to);
  }

  /** What one more event makes of the receipts that are good. */
  lemma GoodSnoc(log: seq<Event>, e: Event, r: Receipt)
    ensures StillGood(log + [e], r, |log| + 1) <==> e == Confirmed(r) || (StillGood(log, r, |log|) && !Ends(e, r))
  {
    if e == Confirmed(r) {
      assert GoodFrom(log + [e], r, |log|, |log| + 1);
    } else {
      assert (log + [e])[|log|] == e;
      assert forall i :: 0 <= i < |log| ==> (log + [e])[i] == log[i];
      if StillGood(log, r, |log|) && !Ends(e, r) {
        var from: nat :| GoodFrom(log, r, from, |log|);
        assert GoodFrom(log + [e], r, from, |log| + 1);
      }
      if StillGood(log + [e], r, |log| + 1) {
        var from: nat :| GoodFrom(log + [e], r, from, |log| + 1);
        assert GoodFrom(log, r, from, |log|);
      }
    }
  }

  /** One more event that is sound itself and repeats no confirmation. */
  lemma LogGrows(log: seq<Event>, e: Event, issued: nat)
    requires LogSound(log, issued) && EventSound(log + [e], |log|, issued)
    requires forall i :: 0 <= i < |log| ==> !SameConfirmation(log[i], e)
    ensures LogSound(log + [e], issued)
  {
    forall i | 0 <= i < |log| ensures EventSound(log + [e], i, issued) {
      assert EventSound(log, i, issued);
      if !log[i].Cancelled? {
        PastStays(log, log[i].receipt, i, e);
      }
    }
  }

  lemma GoodWasConfirmed(log: seq<Event>, r: Receipt)
    requires StillGood(log, r, |log|)
    ensures WasConfirmed(log, r, |log|)
  {
    var from: nat :| GoodFrom(log, r, from, |log|);
    assert log[from] == Confirmed(r);
  }

  /** Nothing starts from a receipt that was never confirmed, or was ended since. */
  lemma StartedWhilePending(log: seq<Event>, issued: nat, i: nat, r: Receipt)
    requires LogSound(log, issued) && i < |log| && log[i] == Started(r)
    ensures exists from :: 0 <= from < i && log[from] == Confirmed(r)
                           && forall k :: from < k < i ==> !Ends(log[k], r)
  {
    assert EventSound(log, i, issued);
    var from: nat :| GoodFrom(log, r, from, i);
  }

  /** A receipt whose start has returned well, or that was cancelled, starts nothing again. */
  lemma NoStartAfterFinish(log: seq<Event>, issued: nat, f: nat, i: nat, r: Receipt)
    requires LogSound(log, issued) && f < i < |log|
    requires log[f] == Finished(r) || (log[f] == Cancelled && WasConfirmed(log, r, f))
    ensures log[i] != Started(r)
  {
    assert EventSound(log, f, issued);
    var first: nat :| first < f && log[first] == Confirmed(r);
    if log[i] == Started(r) {
      NotEndedSince(log, issued, first, i, r);
    }
  }

  lemma NotEndedSince(log: seq<Event>, issued: nat, c: nat, i: nat, r: Receipt)
    requires LogSound(log, issued) && c < i < |log| && log[c] == Confirmed(r) && log[i] == Started(r)
    ensures forall k :: c < k < i ==> !Ends(log[k], r)
  {
    assert EventSound(log, i, issued);
    var from: nat :| GoodFrom(log, r, from, i);
    OneConfirmation(log, issued, r, from, c);
  }

  lemma OneConfirmation(log: seq<Event>, issued: nat, r: Receipt, i: nat, j: nat)
    requires LogSound(log, issued) && i < |log| && j < |log| && log[i] == log[j] == Confirmed(r)
    ensures i == j
  {
    assert SameConfirmation(log[i], log[j]) && SameConfirmation(log[j], log[i]);
  }

  /**
   A receipt that has started once can start again exactly while nothing has ended it: that is, while no
   start of it has returned well, nothing was cancelled and no other stop was confirmed.
   */
  lemma SecondStartIff(log: seq<Event>, issued: nat, i: nat, r: Receipt)
    requires LogSound(log, issued) && i < |log| && log[i] == Started(r)
    ensures StillGood(log, r, |log|) <==> forall k :: i < k < |log| ==> !Ends(log[k], r)
    ensures LogSound(log + [Started(r)], issued) <==> forall k :: i < k < |log| ==> !Ends(log[k], r)
  {
    assert EventSound(log, i, issued);
    var from: nat :| GoodFrom(log, r, from, i);
    PastStays(log, r, |log|, Started(r));
    if forall k :: i < k < |log| ==> !Ends(log[k], r) {
      assert GoodFrom(log, r, from, |log|);
      LogGrows(log, Started(r), issued);
    }
    if LogSound(log + [Started(r)], issued) {
      assert EventSound(log + [Started(r)], |log|, issued);
    }
    if StillGood(log, r, |log|) {
      var again: nat :| GoodFrom(log, r, again, |log|);
      OneConfirmation(log, issued, r, again, from);
    }
  }

  /** Two starts of one receipt: nothing has ended it in between. */
  lemma StartedTwice(log: seq<Event>, issued: nat, i: nat, j: nat, r: Receipt)
    requires LogSound(log, issued) && i < j < |log| && log[i] == log[j] == Started(r)
    ensures forall k :: i < k < j ==> !Ends(log[k], r)
  {
    assert EventSound(log, i, issued) && EventSound(log, j, issued);
    var from: nat :| GoodFrom(log, r, from, i);
    var again: nat :| GoodFrom(log, r, again, j);
    OneConfirmation(log, issued, r, again, from);
  }

  // ---------------------------------------------------------------- the handoff

  class Handoff {
    var cancelEpoch: nat
    var pending: Option<Receipt>
    var stopping: Option<Receipt>
    /** How many receipts and calls there have been. */
    var issued: nat
    var calls: map<nat, Call>
    var called: nat
    ghost var log: seq<Event>

    predicate Owns(r: Receipt)
      reads this
    {
      r.cancelEpoch == cancelEpoch
    }

    ghost predicate Valid()
      reads this
    {
      && LogSound(log, issued)
      && (forall r :: pending == Some(r) <==> StillGood(log, r, |log|))
      && (pending.Some? ==> Owns(pending.value))
      && (stopping.Some? ==> Owns(stopping.value) && stopping.value.id < issued
                             && forall i :: 0 <= i < |log| ==> !SameConfirmation(log[i], Confirmed(stopping.value)))
      && (forall n :: n in calls ==> n < called)
      && (forall n :: n in calls && calls[n].Starting? ==> WasConfirmed(log, calls[n].receipt, |log|))
    }

    constructor ()
      ensures Valid() && pending == None && stopping == None && calls == map[] && log == []
    {
      cancelEpoch, pending, stopping, issued := 0, None, None, 0;
      calls, called, log := map[], 0, [];
    }

    /** One more event: what is pending, and that calls which are starting were confirmed. */
    lemma Grow(e: Event)
      requires forall n :: n in calls && calls[n].Starting? ==> WasConfirmed(log, calls[n].receipt, |log|)
      ensures forall r :: StillGood(log + [e], r, |log| + 1) <==>
              e == Confirmed(r) || (StillGood(log, r, |log|) && !Ends(e, r))
      ensures forall n :: n in calls && calls[n].Starting? ==> WasConfirmed(log + [e], calls[n].receipt, |log| + 1)
    {
      forall r
        ensures StillGood(log + [e], r, |log| + 1) <==>
                e == Confirmed(r) || (StillGood(log, r, |log|) && !Ends(e, r))
      {
        GoodSnoc(log, e, r);
      }
      forall n | n in calls && calls[n].Starting? ensures WasConfirmed(log + [e], calls[n].receipt, |log| + 1) {
        var i :| 0 <= i < |log| && log[i] == Confirmed(calls[n].receipt);
        assert (log + [e])[i] == log[i];
      }
    }

    method Begin(child: nat, generation: nat) returns (r: Receipt)
      requires Valid()
      modifies this`stopping, this`issued
      ensures Valid() && r == Receipt(old(issued), child, generation, cancelEpoch) && stopping == Some(r)
      ensures issued == old(issued) + 1
    {
      r := Receipt(issued, child, generation, cancelEpoch);
      forall i | 0 <= i < |log| ensures EventSound(log, i, issued + 1) && !SameConfirmation(log[i], Confirmed(r)) {
        assert EventSound(log, i, issued);
      }
      issued := issued + 1;
      stopping := Some(r);
    }

    /** A stop is confirmed once, for the receipt of the latest stop, and only if no child is left. */
    method ConfirmStopped(r: Receipt, currentChild: Option<nat>) returns (ok: bool)
      requires Valid()
      modifies this`stopping, this`pending, this`log
      ensures Valid() && (ok <==> old(stopping) == Some(r) && Owns(r) && currentChild == None)
      ensures if ok then stopping == None && pending == Some(r) && log == old(log) + [Confirmed(r)]
              else stopping == old(stopping) && pending == old(pending) && log == old(log)
    {
      if stopping != Some(r) || !Owns(r) || currentChild != None {
        return false;
      }
      LogGrows(log, Confirmed(r), issued);
      Grow(Confirmed(r));
      stopping := None;
      pending := Some(r);
      log := log + [Confirmed(r)];
      return true;
    }

    /** A receipt is admitted for a newer generation, or for its own if its issuer asks. */
    function Admit(generation: nat, currentGeneration: nat, issuer: Option<Receipt>): (r: Option<Receipt>)
      requires Valid()
      reads this
      ensures r.Some? ==> StillGood(log, r.value, |log|) && generation == currentGeneration
                          && (generation > r.value.generation || (issuer == r && generation == r.value.generation))
      ensures r.None? && generation == currentGeneration ==>
                forall x :: StillGood(log, x, |log|) ==>
                  generation < x.generation || (issuer != Some(x) && generation == x.generation)
    {
      if pending.None? || !Owns(pending.value) || generation != currentGeneration then None
      else if generation > pending.value.generation || (issuer == pending && generation == pending.value.generation)
      then pending else None
    }

    /** The call up to its await of the port. */
    method StartAfterPort(r: Receipt, admitted: bool) returns (call: Option<nat>)
      requires Valid()
      modifies this`calls, this`called
      ensures Valid() && (call.Some? <==> admitted && StillGood(log, r, |log|))
      ensures call.Some? ==> call.value == old(called) && calls == old(calls)[call.value := AtPort(r)]
      ensures call.None? ==> calls == old(calls)
    {
      if pending != Some(r) || !Owns(r) || !admitted {
        return None;
      }
      calls := calls[called := AtPort(r)];
      called := called + 1;
      return Some(called - 1);
    }

    /** After the port is known everything is checked again before the start. */
    method PortResolved(call: nat, admitted: bool) returns (started: bool)
      requires Valid() && call in calls && calls[call].AtPort?
      modifies this`calls, this`log
      ensures Valid()
      ensures var r := old(calls)[call].receipt;
              && (started <==> admitted && StillGood(old(log), r, |old(log)|))
              && log == old(log) + (if started then [Started(r)] else [])
              && calls == if started then old(calls)[call := Starting(r)] else old(calls) - {call}
    {
      var r := calls[call].receipt;
      if pending != Some(r) || !Owns(r) || !admitted {
        calls := calls - {call};
        return false;
      }
      Grow(Started(r));
      PastStays(log, r, |log|, Started(r));
      LogGrows(log, Started(r), issued);
      GoodWasConfirmed(log, r);
      calls := calls[call := Starting(r)];
      log := log + [Started(r)];
      return true;
    }

    /** The start has returned: the receipt is used up. A start that failed leaves it pending. */
    method StartReturned(call: nat, failed: bool)
      requires Valid() && call in calls && calls[call].Starting?
      modifies this`calls, this`log, this`pending
      ensures Valid() && calls == old(calls) - {call}
      ensures var r := old(calls)[call].receipt;
              && log == old(log) + [if failed then Failed(r) else Finished(r)]
              && pending == if !failed && old(pending) == Some(r) then None else old(pending)
    {
      var r := calls[call].receipt;
      calls := calls - {call};
      ghost var e := if failed then Failed(r) else Finished(r);
      Grow(e);
      PastStays(log, r, |log|, e);
      LogGrows(log, e, issued);
      if !failed && pending == Some(r) {
        pending := None;
      }
      log := log + [e];
    }

    method Cancel()
      requires Valid()
      modifies this`cancelEpoch, this`pending, this`stopping, this`log
      ensures Valid() && pending == None && stopping == None && log == old(log) + [Cancelled]
      ensures cancelEpoch == old(cancelEpoch) + 1
    {
      LogGrows(log, Cancelled, issued);
      Grow(Cancelled);
      cancelEpoch := cancelEpoch + 1;
      pending, stopping := None, None;
      log := log + [Cancelled];
    }
  }

  /** Two calls that await the port at the same time both start: the receipt is used up only afterwards. */
  method TwoStarts(child: nat, generation: nat) returns (h: Handoff, r: Receipt)
    ensures fresh(h) && h.Valid() && h.log == [Confirmed(r), Started(r), Started(r)]
  {
    h := new Handoff();
    r := h.Begin(child, generation);
    var confirmed := h.ConfirmStopped(r, None);
    var first := h.StartAfterPort(r, true);
    var second := h.StartAfterPort(r, true);
    var one := h.PortResolved(first.value, true);
    var two := h.PortResolved(second.value, true);
  }

  /** A start that failed leaves the receipt pending, so it starts again without any overlap. */
  method StartAgainAfterFailure(child: nat, generation: nat) returns (h: Handoff, r: Receipt)
    ensures fresh(h) && h.Valid() && h.log == [Confirmed(r), Started(r), Failed(r), Started(r)]
  {
    h := new Handoff();
    r := h.Begin(child, generation);
    var confirmed := h.ConfirmStopped(r, None);
    var first := h.StartAfterPort(r, true);
    var one := h.PortResolved(first.value, true);
    h.StartReturned(first.value, true);
    var second := h.StartAfterPort(r, true);
    var two := h.PortResolved(second.value, true);
  }
}
