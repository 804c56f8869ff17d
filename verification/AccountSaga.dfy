/**
 Connecting and disconnecting an IM channel: a transaction over two stores, the credential authority
 and the settings, made recoverable by a journal file. Any call may fail without effect, a patch
 of the settings may fail after it took effect, and the process may die before any effect.
 */
module AccountSaga {
  import opened Json

  /** A channel's credential scope is named by the channel's id. */
  type Id = string
  type Credential = string

  datatype Channel = Channel(id: Id, provider: string, platformAccount: string)

  datatype Status = Ready | Revoked | Disconnected | Unusable

  /** What the authority holds for a scope; an absent slot has revision and generation 0. */
  datatype Slot =
    | Absent
    | Present(status: Status, revision: nat, generation: nat, incarnation: string, credential: Credential)

  datatype Fence = Fence(registry: string, revision: nat, generation: nat, incarnation: string, purpose: string)

  datatype Operation = Connect | Disconnect
  datatype Phase = Prepared | CredentialMutated

  datatype Journal = Journal(
    operation: Operation, phase: Phase, channel: Channel, expected: Fence, committed: Option<Fence>)

  /** How a call or an operation ends. */
  datatype Outcome = Completed | Refused | Died

  /** What the outside answers to one call; `Unverified` is granted, but a readback shows something else. */
  datatype Answer = Granted | Unverified | Denied

  /** Calls that a recovery, or an operation that finds no journal, makes at most. */
  const RECOVERY_CALLS := 5
  const OPERATION_CALLS := 8

  function FenceOf(registry: string, slot: Slot): Fence {
    match slot
    case Absent => Fence(registry, 0, 0, "", "")
    case Present(status, revision, generation, incarnation, _) =>
      Fence(registry, revision, generation, incarnation, if status == Ready then "transport" else "")
  }

  /** `sameFence`. */
  predicate SameFence(registry: string, slot: Slot, expected: Fence) {
    FenceOf(registry, slot) == expected
  }

  predicate IsReady(slot: Slot) { slot.Present? && slot.status == Ready }

  /** The test by which recovery takes a credential for one it put itself but did not record. */
  predicate ExactUnrecordedCandidate(registry: string, slot: Slot, expected: Fence) {
    && IsReady(slot)
    && expected.revision == 0 && expected.generation == 0 && expected.incarnation == ""
    && registry == expected.registry
    && slot.revision == 1 && slot.generation == 1
  }

  // ---------------------------------------------------------------- settings

  predicate Saved(channels: seq<Channel>, id: Id) {
    exists i :: 0 <= i < |channels| && channels[i].id == id
  }

  function Without(channels: seq<Channel>, id: Id): (r: seq<Channel>)
    ensures !Saved(r, id)
    ensures forall c :: c in r <==> c in channels && c.id != id
  {
    if channels == [] then []
    else if channels[0].id == id then Without(channels[1..], id)
    else [channels[0]] + Without(channels[1..], id)
  }

  function Replace(channels: seq<Channel>, channel: Channel): (r: seq<Channel>)
    ensures |r| == |channels|
    ensures forall i :: 0 <= i < |channels| ==>
              r[i] == if channels[i].id == channel.id then channel else channels[i]
  {
    if channels == [] then []
    else [if channels[0].id == channel.id then channel else channels[0]] + Replace(channels[1..], channel)
  }

  /** The channel list `saveConnectedChannel` writes. */
  function WithChannel(channels: seq<Channel>, channel: Channel): seq<Channel> {
    if Saved(channels, channel.id) then Replace(channels, channel) else channels + [channel]
  }

  lemma WithChannelSaves(channels: seq<Channel>, channel: Channel)
    ensures channel in WithChannel(channels, channel)
    ensures Saved(WithChannel(channels, channel), channel.id)
    ensures SameOthers(channels, WithChannel(channels, channel), channel.id)
  {
    var r := WithChannel(channels, channel);
    if Saved(channels, channel.id) {
      var i :| 0 <= i < |channels| && channels[i].id == channel.id;
      assert r[i] == channel;
      forall c: Channel | c.id != channel.id ensures c in channels <==> c in r {
        if c in channels {
          var k :| 0 <= k < |channels| && channels[k] == c;
          assert r[k] == c;
        }
      }
    } else {
      assert r[|channels|] == channel;
    }
  }

  predicate Duplicate(channels: seq<Channel>, channel: Channel) {
    exists i :: 0 <= i < |channels| && channels[i].id != channel.id && channels[i].provider == channel.provider
  }

  /** Saving a channel neither brings nor removes another channel of its provider. */
  lemma DuplicateStays(channels: seq<Channel>, channel: Channel)
    ensures Duplicate(WithChannel(channels, channel), channel) <==> Duplicate(channels, channel)
  {
    var r := WithChannel(channels, channel);
    if Duplicate(channels, channel) {
      var i :| 0 <= i < |channels| && channels[i].id != channel.id && channels[i].provider == channel.provider;
      assert r[i] == channels[i];
    }
    if Duplicate(r, channel) {
      var i :| 0 <= i < |r| && r[i].id != channel.id && r[i].provider == channel.provider;
      assert r[i] == channels[i];
    }
  }

  lemma SavedMember(channels: seq<Channel>, id: Id)
    ensures Saved(channels, id) <==> exists c :: c in channels && c.id == id
  {
    if Saved(channels, id) {
      var i :| 0 <= i < |channels| && channels[i].id == id;
      assert channels[i] in channels;
    }
    if exists c :: c in channels && c.id == id {
      var c :| c in channels && c.id == id;
      var i :| 0 <= i < |channels| && channels[i] == c;
    }
  }

  /** The same channels, apart from the one named. */
  ghost predicate SameOthers(a: seq<Channel>, b: seq<Channel>, id: Id) {
    forall c: Channel :: c.id != id ==> (c in a <==> c in b)
  }

  lemma SameOthersSaved(a: seq<Channel>, b: seq<Channel>, id: Id, other: Id)
    requires SameOthers(a, b, id) && other != id
    ensures Saved(a, other) <==> Saved(b, other)
  {
    SavedMember(a, other);
    SavedMember(b, other);
  }

  // ---------------------------------------------------------------- the invariant

  function SlotIn(slots: map<Id, Slot>, id: Id): Slot {
    if id in slots then slots[id] else Absent
  }

  /** A channel is saved exactly when its credential is ready, and no other status occurs. */
  ghost predicate Settled(slots: map<Id, Slot>, channels: seq<Channel>, id: Id) {
    && (Saved(channels, id) <==> IsReady(SlotIn(slots, id)))
    && (SlotIn(slots, id).Present? ==> IsReady(SlotIn(slots, id)))
  }

  /** What each phase of the journal allows for its own channel. */
  ghost predicate InFlight(registry: string, journal: Journal, slot: Slot, saved: bool) {
    match (journal.operation, journal.phase)
    case (Connect, Prepared) =>
      && journal.expected == FenceOf(registry, Absent)
      && !saved
      && (slot.Present? ==> IsReady(slot) && slot.revision == 1 && slot.generation == 1)
    case (Connect, CredentialMutated) =>
      journal.committed.Some? && IsReady(slot) && SameFence(registry, slot, journal.committed.value)
    case (Disconnect, Prepared) =>
      slot.Present? ==> saved && IsReady(slot) && SameFence(registry, slot, journal.expected)
    case (Disconnect, CredentialMutated) =>
      slot == Absent
  }

  ghost predicate Consistent(registry: string, journal: Option<Journal>, slots: map<Id, Slot>, channels: seq<Channel>) {
    match journal
    case None => forall id :: Settled(slots, channels, id)
    case Some(j) =>
      && (forall id :: id != j.channel.id ==> Settled(slots, channels, id))
      && InFlight(registry, j, SlotIn(slots, j.channel.id), Saved(channels, j.channel.id))
  }

  /** Where recovery from a journal ends, whatever point the operation had reached. */
  ghost predicate ResolvedAs(j: Journal, slot: Slot, channels: seq<Channel>) {
    if j.operation == Operation.Connect && j.phase == CredentialMutated then
      IsReady(slot) && j.channel in channels
    else
      slot == Absent && !Saved(channels, j.channel.id)
  }

  lemma OthersStaySettled(slots: map<Id, Slot>, channels: seq<Channel>, slots': map<Id, Slot>,
                          channels': seq<Channel>, id: Id)
    requires forall other :: other != id ==> Settled(slots, channels, other)
    requires forall other :: other != id ==> SlotIn(slots, other) == SlotIn(slots', other)
    requires SameOthers(channels, channels', id)
    ensures forall other :: other != id ==> Settled(slots', channels', other)
  {
    forall other | other != id ensures Settled(slots', channels', other) {
      assert Settled(slots, channels, other) && SlotIn(slots, other) == SlotIn(slots', other);
      SameOthersSaved(channels, channels', id, other);
    }
  }

  /** Nothing but the named channel and slot changed. */
  ghost predicate OnlyTouches(id: Id, slots: map<Id, Slot>, channels: seq<Channel>, slots': map<Id, Slot>,
                              channels': seq<Channel>) {
    && (forall other :: other != id ==> SlotIn(slots, other) == SlotIn(slots', other))
    && SameOthers(channels, channels', id)
  }

  /** An operation is over when its own channel is settled. */
  lemma Finishes(registry: string, journal: Option<Journal>, id: Id, slots: map<Id, Slot>, channels: seq<Channel>,
                 slots': map<Id, Slot>, channels': seq<Channel>)
    requires Consistent(registry, journal, slots, channels) && (journal.Some? ==> journal.value.channel.id == id)
    requires OnlyTouches(id, slots, channels, slots', channels') && Settled(slots', channels', id)
    ensures Consistent(registry, None, slots', channels')
  {
    OthersStaySettled(slots, channels, slots', channels', id);
  }

  /** An operation goes on while its journal allows what its own channel is. */
  lemma Continues(registry: string, journal: Option<Journal>, j: Journal, slots: map<Id, Slot>, channels: seq<Channel>,
                  slots': map<Id, Slot>, channels': seq<Channel>)
    requires Consistent(registry, journal, slots, channels)
    requires journal.Some? ==> journal.value.channel.id == j.channel.id
    requires OnlyTouches(j.channel.id, slots, channels, slots', channels')
    requires InFlight(registry, j, SlotIn(slots', j.channel.id), Saved(channels', j.channel.id))
    ensures Consistent(registry, Some(j), slots', channels')
  {
    OthersStaySettled(slots, channels, slots', channels', j.channel.id);
  }

  function FindIn(channels: seq<Channel>, id: Id): Option<Channel> {
    if channels == [] then None
    else if channels[0].id == id then Some(channels[0])
    else FindIn(channels[1..], id)
  }

  lemma {:induction false} FindSaved(channels: seq<Channel>, id: Id)
    ensures FindIn(channels, id).Some? <==> Saved(channels, id)
    ensures FindIn(channels, id).Some? ==> FindIn(channels, id).value.id == id
  {
    if channels != [] && channels[0].id != id {
      FindSaved(channels[1..], id);
      if Saved(channels, id) {
        var i :| 0 <= i < |channels| && channels[i].id == id;
        assert channels[1..][i - 1].id == id;
      }
      if Saved(channels[1..], id) {
        var i :| 0 <= i < |channels[1..]| && channels[1..][i].id == id;
        assert channels[i + 1].id == id;
      }
    }
  }

  datatype Command = DoConnect(channel: Channel, credential: Credential) | DoDisconnect(id: Id) | DoRecover

  /** One of the first `n` commands connects the channel. */
  ghost predicate Connects(script: seq<(Command, nat)>, n: nat, channel: Channel) {
    exists i :: 0 <= i < n && i < |script| && script[i].0.DoConnect? && script[i].0.channel == channel
  }

  // ---------------------------------------------------------------- the lifecycle

  class Lifecycle {
    const registry: string
    var journal: Option<Journal>
    var slots: map<Id, Slot>
    var channels: seq<Channel>
    /** How many effects the process performs before it dies. */
    var fuel: nat
    /** The answer to the n-th call, and how many calls there have been. */
    const answers: nat -> Answer
    var calls: nat

    constructor (registry: string, answers: nat -> Answer, fuel: nat)
      ensures this.registry == registry && this.answers == answers && this.fuel == fuel && calls == 0
      ensures journal == None && slots == map[] && channels == []
      ensures Consistent(registry, journal, slots, channels)
    {
      this.registry := registry;
      this.answers := answers;
      this.fuel, calls := fuel, 0;
      journal, slots, channels := None, map[], [];
    }

    function SlotOf(id: Id): Slot
      reads `slots
    {
      SlotIn(slots, id)
    }

    ghost predicate Valid()
      reads `journal, `slots, `channels
    {
      Consistent(registry, journal, slots, channels)
    }

    /** The process lives through the next `n` calls and each of them is granted. */
    ghost predicate Grants(n: nat)
      reads `fuel, `calls
    {
      fuel >= n && forall k :: calls <= k < calls + n ==> answers(k) == Granted
    }

    /** How the next call ends. */
    function Reply(): Outcome
      reads `fuel, `calls
    {
      if fuel == 0 then Died else if answers(calls) == Denied then Refused else Completed
    }

    /** At most `n` calls were made, each of them paid for. */
    twostate predicate Made(n: nat)
      reads `fuel, `calls
    {
      old(calls) <= calls <= old(calls) + n && fuel + calls == old(fuel) + old(calls)
    }

    /** One call was made, unless the process was dead. */
    twostate predicate OneCall()
      reads `fuel, `calls
    {
      Made(1) && (old(fuel) > 0 ==> calls == old(calls) + 1)
    }

    /** The next call to the outside: it is granted, fails without effect, or is never reached. */
    method Attempt() returns (o: Outcome)
      modifies `fuel, `calls
      ensures o == old(Reply())
      ensures OneCall()
    {
      if fuel == 0 {
        return Died;
      }
      o := if answers(calls) == Denied then Refused else Completed;
      fuel, calls := fuel - 1, calls + 1;
    }

    /** A call whose result is compared with what it should show. */
    method Readback() returns (o: Outcome, verified: bool)
      modifies `fuel, `calls
      ensures o == old(Reply())
      ensures verified <==> old(fuel) > 0 && answers(old(calls)) == Granted
      ensures OneCall()
    {
      verified := fuel > 0 && answers(calls) == Granted;
      o := Attempt();
    }

    method Write(j: Journal) returns (o: Outcome)
      modifies `fuel, `calls, `journal
      ensures OneCall()
      ensures o == old(Reply()) && journal == if o == Completed then Some(j) else old(journal)
    {
      o := Attempt();
      if o == Completed {
        journal := Some(j);
      }
    }

    method Clear() returns (o: Outcome)
      modifies `fuel, `calls, `journal
      ensures OneCall()
      ensures o == old(Reply()) && journal == if o == Completed then None else old(journal)
    {
      o := Attempt();
      if o == Completed {
        journal := None;
      }
    }

    method Put(id: Id, expected: Fence, credential: Credential) returns (o: Outcome)
      modifies `fuel, `calls, `slots
      ensures OneCall()
      ensures o == if old(Reply()) == Completed && !old(SameFence(registry, SlotOf(id), expected)) then Refused
              else old(Reply())
      ensures forall other :: other != id ==> SlotIn(old(slots), other) == SlotIn(slots, other)
      ensures o != Completed ==> slots == old(slots)
      ensures o == Completed ==>
                && old(SameFence(registry, SlotOf(id), expected))
                && SlotOf(id).Present? && SlotOf(id).status == Ready
                && SlotOf(id).credential == credential
                && SlotOf(id).revision == expected.revision + 1
                && SlotOf(id).generation == expected.generation + 1
    {
      o := Attempt();
      if o == Completed {
        if SameFence(registry, SlotOf(id), expected) {
          var incarnation: string := *;
          slots := slots[id := Present(Ready, expected.revision + 1, expected.generation + 1, incarnation, credential)];
        } else {
          o := Refused;
        }
      }
    }

    method Delete(id: Id, expected: Fence) returns (o: Outcome)
      modifies `fuel, `calls, `slots
      ensures OneCall()
      ensures o == if old(Reply()) == Completed && !old(SameFence(registry, SlotOf(id), expected)) then Refused
              else old(Reply())
      ensures forall other :: other != id ==> SlotIn(old(slots), other) == SlotIn(slots, other)
      ensures o == Completed ==> old(SameFence(registry, SlotOf(id), expected)) && SlotOf(id) == Absent
      ensures o != Completed ==> slots == old(slots)
    {
      o := Attempt();
      if o == Completed {
        if SameFence(registry, SlotOf(id), expected) {
          slots := slots - {id};
        } else {
          o := Refused;
        }
      }
    }

    /** The `n`-th call from here takes effect, whether or not what it returns is what was asked for. */
    predicate Reaches(n: nat)
      requires n > 0
      reads `fuel, `calls
    {
      fuel >= n && answers(calls + n - 1) != Denied
    }

    /** `store.patch`, and the check of the settings it returns: a patch that took effect may still be refused. */
    method Patch(list: seq<Channel>) returns (o: Outcome)
      modifies `fuel, `calls, `channels
      ensures OneCall()
      ensures o == if old(Reply()) == Completed && answers(old(calls)) == Unverified then Refused else old(Reply())
      ensures channels == if old(Reaches(1)) then list else old(channels)
    {
      var verified;
      o, verified := Readback();
      if o == Completed {
        channels := list;
        o := if verified then Completed else Refused;
      }
    }

    method SaveConnectedChannel(channel: Channel) returns (o: Outcome)
      modifies `fuel, `calls, `channels
      ensures Made(2)
      ensures channels == if old(Reaches(1) && Reaches(2)) && !Duplicate(old(channels), channel)
                          then WithChannel(old(channels), channel) else old(channels)
      ensures o == Completed ==> old(Reaches(1) && Reaches(2) && answers(calls + 1) == Granted)
      ensures old(Grants(2)) ==> (o == Completed <==> !Duplicate(old(channels), channel))
      ensures Duplicate(old(channels), channel) ==> o != Completed
    {
      o := Attempt();
      if o != Completed {
        return;
      }
      if Duplicate(channels, channel) {
        return Refused;
      }
      o := Patch(WithChannel(channels, channel));
    }

    // ------------------------------------------------------------ recovery

    /** The branch for a connect whose credential was not recorded. */
    method RecoverPrepared(j: Journal) returns (o: Outcome)
      requires journal == Some(j) && j.operation == Operation.Connect && j.phase == Prepared
      modifies `fuel, `calls, `journal, `slots
      ensures journal == (if o == Completed then None else Some(j))
      ensures OnlyTouches(j.channel.id, old(slots), old(channels), slots, channels)
      ensures old(Valid()) ==> Valid() && (o == Completed ==> ResolvedAs(j, SlotOf(j.channel.id), channels))
      ensures !old(ExactUnrecordedCandidate(registry, SlotOf(j.channel.id), j.expected)) ==>
                SlotOf(j.channel.id) == old(SlotOf(j.channel.id))
      ensures o == Completed ==>
                (SlotOf(j.channel.id) == old(SlotOf(j.channel.id)) <==>
                 !old(ExactUnrecordedCandidate(registry, SlotOf(j.channel.id), j.expected)))
      ensures o == Completed && old(ExactUnrecordedCandidate(registry, SlotOf(j.channel.id), j.expected)) ==>
                SlotOf(j.channel.id) == Absent
      ensures Made(2) && (old(Grants(2)) ==> o == Completed)
    {
      var slot := SlotOf(j.channel.id);
      if Valid() && slot == Absent {
        Finishes(registry, Some(j), j.channel.id, slots, channels, slots, channels);
      }
      if slot == Absent || !ExactUnrecordedCandidate(registry, slot, j.expected) {
        o := Clear();
        return;
      }
      ghost var slots0 := slots;
      o := Delete(j.channel.id, FenceOf(registry, slot));
      if o == Completed {
        o := Clear();
      }
      if Consistent(registry, Some(j), slots0, channels) {
        if o == Completed {
          Finishes(registry, Some(j), j.channel.id, slots0, channels, slots, channels);
        } else {
          Continues(registry, Some(j), j, slots0, channels, slots, channels);
        }
      }
    }

    /** The branch for a connect whose credential was recorded. */
    method RecoverConnected(j: Journal) returns (o: Outcome)
      requires journal == Some(j) && j.operation == Operation.Connect && j.phase == CredentialMutated
      modifies `fuel, `calls, `journal, `channels
      ensures journal == (if o == Completed then None else Some(j))
      ensures OnlyTouches(j.channel.id, old(slots), old(channels), slots, channels)
      ensures old(Valid()) ==> Valid() && (o == Completed ==> ResolvedAs(j, SlotOf(j.channel.id), channels))
      ensures old(Wedged()) ==> o != Completed && channels == old(channels)
      ensures o != Completed ==> (Wedged() <==> old(Wedged()))
      ensures Made(4) && (old(Grants(4)) && !old(Wedged()) ==> o == Completed)
    {
      var slot := SlotOf(j.channel.id);
      if j.committed.None? || !IsReady(slot) || !SameFence(registry, slot, j.committed.value) {
        o := Clear();
        return;
      }
      var verified;
      o, verified := Readback();
      if o != Completed || !verified {
        o := if o == Died then Died else Refused;
        return;
      }
      ghost var channels0 := channels;
      WithChannelSaves(channels, j.channel);
      DuplicateStays(channels, j.channel);
      o := SaveConnectedChannel(j.channel);
      if o == Completed {
        o := Clear();
      }
      if Consistent(registry, Some(j), slots, channels0) {
        if o == Completed {
          Finishes(registry, Some(j), j.channel.id, slots, channels0, slots, channels);
        } else {
          Continues(registry, Some(j), j, slots, channels0, slots, channels);
        }
      }
    }

    /** The last steps of a disconnect: the channel leaves the settings and the journal is removed. */
    method Unproject(j: Journal) returns (o: Outcome)
      requires journal == Some(j) && j.operation == Operation.Disconnect
      modifies `fuel, `calls, `journal, `channels
      ensures journal == (if o == Completed then None else Some(j))
      ensures OnlyTouches(j.channel.id, slots, old(channels), slots, channels)
      ensures o == Completed ==> !Saved(channels, j.channel.id)
      ensures old(Valid()) && SlotOf(j.channel.id) == Absent ==> Valid()
      ensures Made(2) && (old(Grants(2)) ==> o == Completed)
    {
      ghost var channels0 := channels;
      o := Patch(Without(channels, j.channel.id));
      if o == Completed {
        o := Clear();
      }
      if Consistent(registry, Some(j), slots, channels0) && SlotOf(j.channel.id) == Absent {
        if o == Completed {
          Finishes(registry, Some(j), j.channel.id, slots, channels0, slots, channels);
        } else {
          Continues(registry, Some(j), j, slots, channels0, slots, channels);
        }
      }
    }

    /** The branch for a disconnect. */
    method RecoverDisconnect(j: Journal) returns (o: Outcome)
      requires journal == Some(j) && j.operation == Operation.Disconnect
      modifies `fuel, `calls, `journal, `slots, `channels
      ensures journal == (if o == Completed then None else Some(j))
      ensures OnlyTouches(j.channel.id, old(slots), old(channels), slots, channels)
      ensures old(Valid()) ==> Valid() && (o == Completed ==> ResolvedAs(j, SlotOf(j.channel.id), channels))
      ensures Made(4) && (old(Grants(4)) ==> o == Completed)
    {
      var slot := SlotOf(j.channel.id);
      ghost var slots0 := slots;
      if j.phase == Prepared && slot != Absent {
        if !SameFence(registry, slot, j.expected) {
          o := Clear();
          return;
        }
        o := Delete(j.channel.id, j.expected);
        if o != Completed {
          return;
        }
        if Consistent(registry, Some(j), slots0, channels) {
          Continues(registry, Some(j), j, slots0, channels, slots, channels);
        }
      }
      o := Attempt();
      if o == Completed {
        o := Unproject(j);
      }
    }

    /**
     `recoverNoLock`. It either leaves the journal, to be tried again, or ends where the journal's
     phase says, and never touches another channel. When no call fails it completes exactly if the
     journal is not wedged.
     */
    method Recover() returns (o: Outcome)
      modifies `fuel, `calls, `journal, `slots, `channels
      ensures old(Valid()) ==> Valid()
      ensures o == Completed ==> journal == None
      ensures o != Completed ==> journal == old(journal)
      ensures old(journal) == None ==> o == Completed && slots == old(slots) && channels == old(channels)
      ensures old(journal).Some? ==>
                var j := old(journal).value;
                && OnlyTouches(j.channel.id, old(slots), old(channels), slots, channels)
                && (o == Completed && old(Valid()) ==> ResolvedAs(j, SlotOf(j.channel.id), channels))
                && (j.operation == Operation.Connect && j.phase == Prepared &&
                    !old(ExactUnrecordedCandidate(registry, SlotOf(j.channel.id), j.expected)) ==>
                      SlotOf(j.channel.id) == old(SlotOf(j.channel.id)) && channels == old(channels))
                && (j.operation == Operation.Connect && j.phase == Prepared && o == Completed &&
                    old(ExactUnrecordedCandidate(registry, SlotOf(j.channel.id), j.expected)) ==>
                      SlotOf(j.channel.id) == Absent)
      ensures old(Wedged()) ==> o != Completed && slots == old(slots) && channels == old(channels)
      ensures Made(if old(journal) == None then 0 else RECOVERY_CALLS)
      ensures old(Grants(RECOVERY_CALLS)) ==> (o == Completed <==> !old(Wedged()))
      ensures o != Completed ==> (Wedged() <==> old(Wedged())) && (old(fuel) > 0 ==> calls > old(calls))
    {
      if journal == None {
        return Completed;
      }
      var j := journal.value;
      o := Attempt();
      if o != Completed {
        return;
      }
      if j.operation == Operation.Connect {
        if j.phase == Prepared {
          o := RecoverPrepared(j);
        } else {
          o := RecoverConnected(j);
        }
      } else {
        o := RecoverDisconnect(j);
      }
    }

    /** A recorded connect that can never be projected: another channel has the same provider. */
    ghost predicate Wedged()
      reads `journal, `slots, `channels
    {
      && journal.Some?
      && journal.value.operation == Operation.Connect && journal.value.phase == CredentialMutated
      && journal.value.committed.Some?
      && IsReady(SlotOf(journal.value.channel.id))
      && SameFence(registry, SlotOf(journal.value.channel.id), journal.value.committed.value)
      && Duplicate(channels, journal.value.channel)
    }

    // ------------------------------------------------------------ connect and disconnect

    /** What `connect` writes before it puts the credential. */
    function ConnectJournal(channel: Channel): Journal {
      Journal(Operation.Connect, Prepared, channel, FenceOf(registry, Absent), None)
    }

    /** The credential put, its readback, and the record of it. Started with the slot absent. */
    method PutAndRecord(j: Journal, credential: Credential) returns (o: Outcome)
      requires Valid() && journal == Some(j) && j.operation == Operation.Connect && j.phase == Prepared
      requires SlotOf(j.channel.id) == Absent && j.committed == None
      modifies `fuel, `calls, `journal, `slots
      ensures Valid() && OnlyTouches(j.channel.id, old(slots), channels, slots, channels)
      ensures journal == None || (journal.value.channel == j.channel && journal.value.operation == Operation.Connect)
      ensures o != Completed ==> journal == None || journal == Some(j)
      ensures old(fuel) == 0 ==> o == Died && journal == old(journal) && slots == old(slots)
      ensures old(Grants(3)) && j.expected == FenceOf(registry, Absent) ==> o == Completed
      ensures o == Completed ==> Made(3)
      ensures o == Completed ==>
                && journal.Some? && journal.value.phase == CredentialMutated && journal.value.channel == j.channel
                && SlotOf(j.channel.id).Present? && SlotOf(j.channel.id).credential == credential
    {
      ghost var slots0 := slots;
      o := Put(j.channel.id, j.expected, credential);
      if o != Completed {
        if o == Refused {
          var cleared := Clear();
          if cleared == Completed {
            Finishes(registry, Some(j), j.channel.id, slots0, channels, slots, channels);
          }
        }
        return;
      }
      Continues(registry, Some(j), j, slots0, channels, slots, channels);
      ghost var slots1 := slots;
      var committed := FenceOf(registry, SlotOf(j.channel.id));
      var verified;
      o, verified := Readback();
      if o != Completed {
        return;
      }
      if !verified {
        o := Delete(j.channel.id, committed);
        if o == Completed {
          Continues(registry, Some(j), j, slots1, channels, slots, channels);
          ghost var slots2 := slots;
          var cleared := Clear();
          if cleared == Completed {
            Finishes(registry, Some(j), j.channel.id, slots2, channels, slots, channels);
          }
          o := if cleared == Died then Died else Refused;
        }
        return;
      }
      o := Write(j.(phase := CredentialMutated, committed := Some(committed)));
      if o == Completed {
        Continues(registry, Some(j), journal.value, slots1, channels, slots, channels);
      }
    }

    /** The check of the slot, and the journal that says what is coming. */
    method Prepare(channel: Channel) returns (o: Outcome)
      requires Valid() && journal == None
      modifies `fuel, `calls, `journal
      ensures Valid() && Made(2)
      ensures journal == if o == Completed then Some(ConnectJournal(channel)) else None
      ensures o == Completed ==> SlotOf(channel.id) == Absent && calls == old(calls) + 2
      ensures old(Grants(2)) ==> (o == Completed <==> SlotOf(channel.id) == Absent)
    {
      o := Attempt();
      if o != Completed {
        return;
      }
      if SlotOf(channel.id) != Absent {
        return Refused;
      }
      assert Settled(slots, channels, channel.id);
      o := Write(ConnectJournal(channel));
      if o == Completed {
        Continues(registry, None, ConnectJournal(channel), slots, channels, slots, channels);
      }
    }

    /** The last steps of a connect: the channel is saved and the journal removed. */
    method Project(channel: Channel) returns (o: Outcome)
      requires Valid() && journal.Some? && journal.value.channel == channel
      requires journal.value.operation == Operation.Connect && journal.value.phase == CredentialMutated
      modifies `fuel, `calls, `journal, `channels
      ensures Valid() && OnlyTouches(channel.id, slots, old(channels), slots, channels)
      ensures journal == if o == Completed then None else old(journal)
      ensures o == Completed ==> channel in channels && IsReady(SlotOf(channel.id))
      ensures old(Grants(3)) ==> (o == Completed <==> !Duplicate(old(channels), channel))
      ensures Duplicate(old(channels), channel) ==> o != Completed && channels == old(channels)
      ensures Wedged() ==> Duplicate(old(channels), channel)
      ensures Duplicate(old(channels), channel) ==> Wedged()
    {
      ghost var channels0, recorded := channels, journal;
      WithChannelSaves(channels, channel);
      DuplicateStays(channels, channel);
      o := SaveConnectedChannel(channel);
      Continues(registry, recorded, recorded.value, slots, channels0, slots, channels);
      if o != Completed {
        return;
      }
      o := Clear();
      if o == Completed {
        Finishes(registry, recorded, channel.id, slots, channels0, slots, channels);
      }
    }

    /**
     A connect that finds no journal and meets no failing call completes exactly if the slot is free
     and no other channel has its provider; in the second case it leaves the journal wedged.
     */
    method Connect(channel: Channel, credential: Credential) returns (o: Outcome)
      requires Valid()
      modifies `fuel, `calls, `journal, `slots, `channels
      ensures Valid()
      ensures o == Completed ==>
                && journal == None && channel in channels
                && IsReady(SlotOf(channel.id)) && SlotOf(channel.id).credential == credential
      ensures old(journal) == None ==> OnlyTouches(channel.id, old(slots), old(channels), slots, channels)
      ensures old(journal) == None && Duplicate(old(channels), channel) ==>
                o != Completed && channels == old(channels)
                && (journal.Some? && journal.value.phase == CredentialMutated ==> Wedged())
      ensures old(journal) == None && old(Grants(OPERATION_CALLS)) ==>
                && (o == Completed <==> old(SlotOf(channel.id)) == Absent && !Duplicate(old(channels), channel))
                && (Wedged() <==> old(SlotOf(channel.id)) == Absent && Duplicate(old(channels), channel))
      ensures Wedged() && !old(Wedged()) ==> journal.value.channel == channel
      ensures old(journal) == None && old(fuel) == 2 && old(Grants(2)) && old(SlotOf(channel.id)) == Absent ==>
                journal == Some(ConnectJournal(channel)) && slots == old(slots) && channels == old(channels)
      ensures old(Wedged()) ==>
                o != Completed && journal == old(journal) && slots == old(slots) && channels == old(channels)
    {
      o := Recover();
      if o != Completed {
        return;
      }
      o := Prepare(channel);
      if o != Completed {
        return;
      }
      o := PutAndRecord(journal.value, credential);
      if o != Completed {
        return;
      }
      o := Project(channel);
    }

    /** The first channel with an id. */
    function Find(id: Id): Option<Channel>
      reads `channels
    {
      FindIn(channels, id)
    }

    method Disconnect(id: Id) returns (o: Outcome)
      requires Valid()
      modifies `fuel, `calls, `journal, `slots, `channels
      ensures Valid()
      ensures o == Completed ==> journal == None && !Saved(channels, id) && SlotOf(id) == Absent
      ensures old(journal) == None ==> OnlyTouches(id, old(slots), old(channels), slots, channels)
      ensures old(journal) == None && old(Grants(OPERATION_CALLS)) ==> o == Completed
      ensures Wedged() ==> old(Wedged())
      ensures old(Wedged()) ==>
                o != Completed && journal == old(journal) && slots == old(slots) && channels == old(channels)
    {
      o := Recover();
      if o != Completed {
        return;
      }
      o := Attempt();
      if o != Completed {
        return;
      }
      assert Settled(slots, channels, id);
      FindSaved(channels, id);
      var found := Find(id);
      if found == None {
        return Completed;
      }
      o := Attempt();
      if o != Completed {
        return;
      }
      var expected := FenceOf(registry, SlotOf(id));
      var j := Journal(Operation.Disconnect, Prepared, found.value, expected, None);
      o := Write(j);
      if o != Completed {
        return;
      }
      Continues(registry, None, j, slots, channels, slots, channels);
      o := DeleteAndRecord(j);
      if o != Completed {
        return;
      }
      o := Unproject(journal.value);
    }

    /** The credential delete, the invalidation notice, and the record of it. */
    method DeleteAndRecord(j: Journal) returns (o: Outcome)
      requires Valid() && journal == Some(j) && j.operation == Operation.Disconnect && j.phase == Prepared
      requires j.expected == FenceOf(registry, SlotOf(j.channel.id))
      modifies `fuel, `calls, `journal, `slots
      ensures Valid() && OnlyTouches(j.channel.id, old(slots), channels, slots, channels)
      ensures journal == None || (journal.value.channel == j.channel && journal.value.operation == Operation.Disconnect)
      ensures o == Completed ==>
              journal.Some? && journal.value.phase == CredentialMutated && SlotOf(j.channel.id) == Absent
      ensures old(Grants(3)) ==> o == Completed
      ensures o == Completed ==> Made(3)
    {
      ghost var slots0 := slots;
      if SlotOf(j.channel.id) != Absent {
        o := Delete(j.channel.id, j.expected);
        if o != Completed {
          if o == Refused {
            var cleared := Clear();
            if cleared == Completed {
              Finishes(registry, Some(j), j.channel.id, slots0, channels, slots, channels);
            }
          }
          return;
        }
        Continues(registry, Some(j), j, slots0, channels, slots, channels);
      }
      o := Attempt();
      if o != Completed {
        return;
      }
      o := Write(j.(phase := CredentialMutated));
      if o == Completed {
        Continues(registry, Some(j), journal.value, slots0, channels, slots, channels);
      }
    }

    // ------------------------------------------------------------ runs

    /**
     Processes that start with the given fuel, perform one command each, and may die or be refused
     anywhere in it. Whenever no journal is left, a channel is saved exactly when its credential is
     ready. From a wedged state no command ever changes anything, and only a connect wedges.
     */
    method RunScript(script: seq<(Command, nat)>)
      requires Valid()
      modifies `fuel, `calls, `journal, `slots, `channels
      ensures Valid()
      ensures journal == None ==> forall id :: Saved(channels, id) <==> IsReady(SlotIn(slots, id))
      ensures old(Wedged()) ==> journal == old(journal) && slots == old(slots) && channels == old(channels)
      ensures Wedged() && !old(Wedged()) ==> Connects(script, |script|, journal.value.channel)
    {
      var i := 0;
      while i < |script|
        invariant 0 <= i <= |script| && Valid()
        invariant old(Wedged()) ==> journal == old(journal) && slots == old(slots) && channels == old(channels)
        invariant Wedged() && !old(Wedged()) ==> Connects(script, i, journal.value.channel)
      {
        var (command, fuel') := script[i];
        fuel := fuel';
        match command {
          case DoConnect(channel, credential) => var _ := Connect(channel, credential);
          case DoDisconnect(id) => var _ := Disconnect(id);
          case DoRecover => var _ := Recover();
        }
        i := i + 1;
      }
      forall id | journal == None ensures Saved(channels, id) <==> IsReady(SlotIn(slots, id)) {
        assert Settled(slots, channels, id);
      }
    }

    /**
     However often recovery dies or is refused, when it completes it ends where the journal said. If
     no call fails after the `n`-th, then more than `n` processes that live long enough complete it,
     exactly if the journal is not wedged.
     */
    method RecoverAtLast(fuels: seq<nat>, ghost n: nat) returns (o: Outcome)
      requires Valid()
      modifies `fuel, `calls, `journal, `slots, `channels
      ensures Valid()
      ensures old(journal).Some? && o == Completed ==>
                ResolvedAs(old(journal).value, SlotOf(old(journal).value.channel.id), channels)
      ensures o != Completed ==> journal == old(journal)
      ensures old(journal).Some? ==>
                OnlyTouches(old(journal).value.channel.id, old(slots), old(channels), slots, channels)
      ensures |fuels| > n && (forall i :: 0 <= i < |fuels| ==> fuels[i] >= RECOVERY_CALLS)
              && (forall k :: k >= n ==> answers(k) == Granted) ==>
                (o == Completed <==> !old(Wedged()))
    {
      o := Died;
      var i := 0;
      while i < |fuels|
        invariant 0 <= i <= |fuels| && Valid() && o != Completed && journal == old(journal)
        invariant old(journal).Some? ==>
                    OnlyTouches(old(journal).value.channel.id, old(slots), old(channels), slots, channels)
        invariant Wedged() <==> old(Wedged())
        invariant (forall k :: 0 <= k < |fuels| ==> fuels[k] >= RECOVERY_CALLS) ==> calls >= i
        invariant (forall k :: 0 <= k < |fuels| ==> fuels[k] >= RECOVERY_CALLS)
                  && (forall k :: k >= n ==> answers(k) == Granted)
                  && i > n ==>
                    old(Wedged())
      {
        fuel := fuels[i];
        o := Recover();
        if o == Completed {
          return;
        }
        i := i + 1;
      }
    }
  }

  // ---------------------------------------------------------------- what the code leaves open

  /**
   Two connects of one provider under different ids, without any failure: the second leaves a ready
   credential that belongs to no saved channel, and a journal from which no operation recovers.
   */
  method WedgeReached(a: Channel, b: Channel, first: Credential, second: Credential) returns (c: Lifecycle)
    requires a.id != b.id && a.provider == b.provider
    ensures fresh(c) && c.Valid() && c.Wedged() && c.journal.value.channel == b
    ensures a in c.channels && !Saved(c.channels, b.id) && IsReady(c.SlotOf(b.id))
  {
    c := new Lifecycle("registry", n => Granted, OPERATION_CALLS);
    var o := c.Connect(a, first);
    assert Settled(c.slots, c.channels, b.id);
    var i :| 0 <= i < |c.channels| && c.channels[i] == a;
    c.fuel := OPERATION_CALLS;
    o := c.Connect(b, second);
  }

  /**
   A connect that died before its put, and then the first put of somebody else: recovery takes it for
   its own and deletes it.
   */
  method ForeignFirstPutDeleted(channel: Channel, mine: Credential, theirs: Credential)
    returns (c: Lifecycle, before: Slot, after: Slot)
    ensures before == Present(Ready, 1, 1, "other", theirs) && after == Absent
    ensures fresh(c) && c.journal == None && c.SlotOf(channel.id) == after
  {
    c := new Lifecycle("registry", n => Granted, 2);
    var o := c.Connect(channel, mine);
    before := Present(Ready, 1, 1, "other", theirs);
    c.slots := c.slots[channel.id := before];
    c.fuel := RECOVERY_CALLS;
    o := c.Recover();
    after := c.SlotOf(channel.id);
  }
}
