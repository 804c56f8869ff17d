/**
 The lock on the runtime configuration: writers of one directory queue up on a chain of promises. A
 ticket stands for one call of `acquireGuiConfigWrite`; steps of different callers come in any order.
 */
module ConfigLock {
  import opened Json

  type Key(==) = string

  /** A ticket waits for the tail it found; its own gate opens when it is released. */
  datatype Ticket = Ticket(key: Key, previous: Option<nat>, granted: bool, gateOpen: bool)

  /** The promise of a ticket's turn: its predecessor's turn is done and its own gate is open. */
  predicate TurnDone(ts: seq<Ticket>, n: nat) {
    && n < |ts| && ts[n].gateOpen
    && (ts[n].previous.Some? ==> ts[n].previous.value < n && TurnDone(ts, ts[n].previous.value))
  }

  /** The caller holding the lock of a key. */
  predicate Holds(ts: seq<Ticket>, n: nat, key: Key) {
    n < |ts| && ts[n].key == key && ts[n].granted && !ts[n].gateOpen
  }

  // ---------------------------------------------------------------- what every step keeps

  predicate OpenIfKey(t: Ticket, key: Key) {
    t.key == key ==> t.gateOpen
  }

  /** Every earlier ticket of the key has been released. */
  predicate EarlierOpen(ts: seq<Ticket>, n: nat)
    requires n < |ts|
  {
    forall m :: 0 <= m < n ==> OpenIfKey(ts[m], ts[n].key)
  }

  /** Nobody of the key came between a ticket and the tail it found; without a tail, all before are released. */
  predicate Between(ts: seq<Ticket>, n: nat)
    requires n < |ts|
  {
    if ts[n].previous.None? then EarlierOpen(ts, n)
    else
      && ts[n].previous.value < n && ts[ts[n].previous.value].key == ts[n].key
      && forall m :: ts[n].previous.value < m < n ==> ts[m].key != ts[n].key
  }

  predicate SoundAt(ts: seq<Ticket>, n: nat)
    requires n < |ts|
  {
    && (ts[n].gateOpen ==> ts[n].granted)
    && (ts[n].granted ==> EarlierOpen(ts, n))
    && Between(ts, n)
  }

  /** The entry of a key is its last ticket, still to be released; a key without an entry has nobody left. */
  predicate TailSound(ts: seq<Ticket>, tails: map<Key, nat>, key: Key) {
    if key in tails then
      && tails[key] < |ts| && ts[tails[key]].key == key && !ts[tails[key]].gateOpen
      && forall m :: tails[key] < m < |ts| ==> ts[m].key != key
    else
      forall m :: 0 <= m < |ts| ==> OpenIfKey(ts[m], key)
  }

  predicate Ordered(ts: seq<Ticket>, m: nat, n: nat) {
    m < |ts| && n < |ts| && ts[m].key == ts[n].key ==> m < n
  }

  /** Grants are of granted tickets, all of them, and grants of one key follow the order of its requests. */
  ghost predicate GrantsSound(ts: seq<Ticket>, grants: seq<nat>) {
    && (forall i :: 0 <= i < |grants| ==> grants[i] < |ts| && ts[grants[i]].granted)
    && (forall n :: 0 <= n < |ts| && ts[n].granted ==> n in grants)
    && (forall i, j :: 0 <= i < j < |grants| ==> Ordered(ts, grants[i], grants[j]))
  }

  ghost predicate Sound(ts: seq<Ticket>, tails: map<Key, nat>, grants: seq<nat>) {
    && (forall n :: 0 <= n < |ts| ==> SoundAt(ts, n))
    && (forall key: Key :: TailSound(ts, tails, key))
    && GrantsSound(ts, grants)
  }

  /** The same ticket, perhaps granted or released meanwhile. */
  predicate Later(a: Ticket, b: Ticket) {
    a.key == b.key && a.previous == b.previous && (a.granted ==> b.granted) && (a.gateOpen ==> b.gateOpen)
  }

  lemma OpenStays(ts: seq<Ticket>, us: seq<Ticket>, n: nat)
    requires n < |ts| <= |us| && forall m :: 0 <= m < |ts| ==> Later(ts[m], us[m])
    ensures EarlierOpen(ts, n) ==> EarlierOpen(us, n)
    ensures Between(ts, n) ==> Between(us, n)
  {
    assert Later(ts[n], us[n]);
    if EarlierOpen(ts, n) {
      forall m | 0 <= m < n ensures OpenIfKey(us[m], us[n].key) {
        assert OpenIfKey(ts[m], ts[n].key) && Later(ts[m], us[m]);
      }
    }
    forall m | 0 <= m < n ensures us[m].key == ts[m].key {
      assert Later(ts[m], us[m]);
    }
  }

  lemma AcquireKeeps(ts: seq<Ticket>, tails: map<Key, nat>, grants: seq<nat>, key: Key)
    requires Sound(ts, tails, grants)
    ensures var t := Ticket(key, if key in tails then Some(tails[key]) else None, false, false);
            Sound(ts + [t], tails[key := |ts|], grants)
  {
    var t := Ticket(key, if key in tails then Some(tails[key]) else None, false, false);
    var us := ts + [t];
    assert TailSound(ts, tails, key);
    forall n | 0 <= n < |us| ensures SoundAt(us, n) {
      if n < |ts| {
        assert SoundAt(ts, n);
        OpenStays(ts, us, n);
      } else {
        assert forall m :: 0 <= m < |ts| ==> us[m] == ts[m];
      }
    }
    var vs := tails[key := |ts|];
    forall k: Key ensures TailSound(us, vs, k) {
      assert TailSound(ts, tails, k);
    }
    forall i, j | 0 <= i < j < |grants| ensures Ordered(us, grants[i], grants[j]) {
      assert Ordered(ts, grants[i], grants[j]);
    }
  }

  /** When a ticket's turn comes, everybody before it has released. */
  lemma TurnMeansOpen(ts: seq<Ticket>, n: nat)
    requires n < |ts| && SoundAt(ts, n)
    requires ts[n].previous.Some? && TurnDone(ts, ts[n].previous.value) ==> SoundAt(ts, ts[n].previous.value)
    requires ts[n].previous.Some? ==> TurnDone(ts, ts[n].previous.value)
    ensures EarlierOpen(ts, n)
  {
    if ts[n].previous.Some? {
      var p := ts[n].previous.value;
      forall m | 0 <= m < n ensures OpenIfKey(ts[m], ts[n].key) {
        assert m < p ==> OpenIfKey(ts[m], ts[p].key);
      }
    }
  }

  lemma ProceedKeeps(ts: seq<Ticket>, tails: map<Key, nat>, grants: seq<nat>, n: nat)
    requires Sound(ts, tails, grants) && n < |ts| && !ts[n].granted
    requires ts[n].previous.Some? ==> TurnDone(ts, ts[n].previous.value)
    ensures Sound(ts[n := ts[n].(granted := true)], tails, grants + [n])
  {
    var us := ts[n := ts[n].(granted := true)];
    assert SoundAt(ts, n);
    TurnMeansOpen(ts, n);
    forall k | 0 <= k < |us| ensures SoundAt(us, k) {
      assert SoundAt(ts, k);
      OpenStays(ts, us, k);
    }
    forall k: Key ensures TailSound(us, tails, k) {
      assert TailSound(ts, tails, k);
      forall m | 0 <= m < |ts| ensures OpenIfKey(us[m], k) <==> OpenIfKey(ts[m], k) {}
    }
    forall i, j | 0 <= i < j < |grants + [n]| ensures Ordered(us, (grants + [n])[i], (grants + [n])[j]) {
      assert j < |grants| ==> Ordered(ts, grants[i], grants[j]);
      GrantedBefore(ts, grants[i], n);
    }
  }

  lemma GrantedBefore(ts: seq<Ticket>, m: nat, n: nat)
    requires m < |ts| && n < |ts| && SoundAt(ts, m) && SoundAt(ts, n) && ts[m].granted && !ts[n].granted
    ensures Ordered(ts, m, n)
  {
    if n < m {
      assert OpenIfKey(ts[n], ts[m].key);
    }
  }

  lemma ReleaseKeeps(ts: seq<Ticket>, tails: map<Key, nat>, grants: seq<nat>, n: nat)
    requires Sound(ts, tails, grants) && n < |ts| && ts[n].granted && !ts[n].gateOpen
    ensures var key := ts[n].key;
            key in tails &&
            Sound(ts[n := ts[n].(gateOpen := true)], if tails[key] == n then tails - {key} else tails, grants)
  {
    var key := ts[n].key;
    var us := ts[n := ts[n].(gateOpen := true)];
    assert TailSound(ts, tails, key) && SoundAt(ts, n);
    assert !OpenIfKey(ts[n], key);
    forall k | 0 <= k < |us| ensures SoundAt(us, k) {
      assert SoundAt(ts, k);
      OpenStays(ts, us, k);
    }
    var vs := if tails[key] == n then tails - {key} else tails;
    forall k: Key ensures TailSound(us, vs, k) {
      assert TailSound(ts, tails, k);
      if k !in vs {
        forall m | 0 <= m < |us| ensures OpenIfKey(us[m], k) {
          assert k != key ==> OpenIfKey(ts[m], k);
          assert m < n ==> OpenIfKey(ts[m], key);
        }
      }
    }
    forall i, j | 0 <= i < j < |grants| ensures Ordered(us, grants[i], grants[j]) {
      assert Ordered(ts, grants[i], grants[j]);
    }
  }

  // ---------------------------------------------------------------- the laws

  /** At most one caller holds the lock of a key. */
  lemma OneHolder(ts: seq<Ticket>, tails: map<Key, nat>, grants: seq<nat>, key: Key, m: nat, n: nat)
    requires Sound(ts, tails, grants) && Holds(ts, m, key) && Holds(ts, n, key)
    ensures m == n
  {
    assert SoundAt(ts, m) && SoundAt(ts, n);
  }

  /** The entry of a key is there exactly while somebody holds or waits. */
  lemma EntryIff(ts: seq<Ticket>, tails: map<Key, nat>, grants: seq<nat>, key: Key)
    requires Sound(ts, tails, grants)
    ensures key in tails <==> exists n :: 0 <= n < |ts| && ts[n].key == key && !ts[n].gateOpen
  {
    assert TailSound(ts, tails, key);
    if n :| 0 <= n < |ts| && ts[n].key == key && !ts[n].gateOpen {
      assert !OpenIfKey(ts[n], key);
    }
  }

  /** The first ticket of a key that is not released can go on: nobody waits for a lock that is free. */
  lemma {:induction false} FirstMayProceed(ts: seq<Ticket>, tails: map<Key, nat>, grants: seq<nat>, n: nat)
    requires Sound(ts, tails, grants) && n < |ts| && EarlierOpen(ts, n)
    ensures ts[n].previous.Some? ==> TurnDone(ts, ts[n].previous.value)
    decreases n
  {
    assert SoundAt(ts, n);
    if ts[n].previous.Some? {
      var p := ts[n].previous.value;
      assert SoundAt(ts, p) && OpenIfKey(ts[p], ts[n].key);
      FirstMayProceed(ts, tails, grants, p);
    }
  }

  // ---------------------------------------------------------------- the lock

  class Locks {
    var tickets: seq<Ticket>
    /** The last ticket of each key that has an entry. */
    var tails: map<Key, nat>
    /** The tickets in the order in which they were granted. */
    ghost var grants: seq<nat>

    ghost predicate Valid()
      reads this
    {
      Sound(tickets, tails, grants)
    }

    constructor ()
      ensures Valid() && tickets == [] && tails == map[] && grants == []
    {
      tickets, tails, grants := [], map[], [];
    }

    /** The synchronous part: the caller finds the tail of its key and becomes the tail. */
    method Acquire(key: Key) returns (n: nat)
      requires Valid()
      modifies this`tickets, this`tails
      ensures Valid() && n == |old(tickets)| && tails == old(tails)[key := n]
      ensures tickets ==
              old(tickets) + [Ticket(key, if key in old(tails) then Some(old(tails)[key]) else None, false, false)]
    {
      AcquireKeeps(tickets, tails, grants, key);
      var previous := if key in tails then Some(tails[key]) else None;
      n := |tickets|;
      tickets := tickets + [Ticket(key, previous, false, false)];
      tails := tails[key := n];
    }

    /** The caller goes on once its predecessor's turn is done. */
    method Proceed(n: nat) returns (ok: bool)
      requires Valid() && n < |tickets|
      modifies this`tickets, this`grants
      ensures Valid()
      ensures ok <==> !old(tickets)[n].granted
                      && (old(tickets)[n].previous.Some? ==> TurnDone(old(tickets), old(tickets)[n].previous.value))
      ensures if ok then tickets == old(tickets)[n := old(tickets)[n].(granted := true)] && grants == old(grants) + [n]
              else tickets == old(tickets) && grants == old(grants)
    {
      if tickets[n].granted || (tickets[n].previous.Some? && !TurnDone(tickets, tickets[n].previous.value)) {
        return false;
      }
      ProceedKeeps(tickets, tails, grants, n);
      tickets := tickets[n := tickets[n].(granted := true)];
      grants := grants + [n];
      return true;
    }

    /** Releasing opens the gate once, and drops the entry if nobody has queued behind; again it does nothing. */
    method Release(n: nat)
      requires Valid() && n < |tickets| && tickets[n].granted
      modifies this`tickets, this`tails
      ensures Valid() && tickets == old(tickets)[n := old(tickets)[n].(gateOpen := true)]
      ensures old(tickets)[n].gateOpen ==> tickets == old(tickets) && tails == old(tails)
      ensures !old(tickets)[n].gateOpen ==>
                var key := old(tickets)[n].key;
                key in old(tails) && tails == if old(tails)[key] == n then old(tails) - {key} else old(tails)
    {
      if tickets[n].gateOpen {
        assert tickets[n := tickets[n].(gateOpen := true)] == tickets;
        return;
      }
      ReleaseKeeps(tickets, tails, grants, n);
      var key := tickets[n].key;
      tickets := tickets[n := tickets[n].(gateOpen := true)];
      if key in tails && tails[key] == n {
        tails := tails - {key};
      }
    }
  }
}
