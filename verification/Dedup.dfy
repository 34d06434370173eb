// Deduplication by fingerprint with a time to live, over whole histories.
module Dedup {

  // What the store says to an existence check: its answer, or an error together with the
  // boolean returned beside it.
  datatype Probe = Answered | Broken(reported: bool)

  // One alert on its way out: the check at time now, and whether the write that follows an
  // unsuccessful check fails.
  datatype Event<F> = Event(fingerprint: F, now: int, ttl: int, probe: Probe, setFails: bool)

  function Exists<F(==)>(expiry: map<F, int>, e: Event<F>): bool {
    match e.probe
    case Answered => e.fingerprint in expiry && e.now < expiry[e.fingerprint]
    case Broken(reported) => reported
  }

  function AfterEvent<F(==)>(expiry: map<F, int>, e: Event<F>): map<F, int> {
    if Exists(expiry, e) || e.setFails then expiry else expiry[e.fingerprint := e.now + e.ttl]
  }

  // The keys of the store, with the time each one expires, after a history.
  function StoreAfter<F(==)>(log: seq<Event<F>>): map<F, int> {
    if log == [] then map[] else AfterEvent(StoreAfter(log[..|log| - 1]), log[|log| - 1])
  }

  lemma StoreAfterSnoc<F>(log: seq<Event<F>>, e: Event<F>)
    ensures StoreAfter(log + [e]) == AfterEvent(StoreAfter(log), e)
  {
    assert (log + [e])[..|log|] == log;
  }

  // The i-th alert of a history was dropped.
  predicate Dropped<F(==)>(log: seq<Event<F>>, i: nat)
    requires i < |log|
  {
    Exists(StoreAfter(log[..i]), log[i])
  }

  // The i-th alert left, and its fingerprint was written down.
  predicate Recorded<F(==)>(log: seq<Event<F>>, i: nat)
    requires i < |log|
  {
    !Dropped(log, i) && !log[i].setFails
  }

  ghost predicate Chronological<F>(log: seq<Event<F>>) {
    forall i, j :: 0 <= i <= j < |log| ==> log[i].now <= log[j].now
  }

  ghost predicate OneTtl<F>(log: seq<Event<F>>, ttl: int) {
    forall i :: 0 <= i < |log| ==> log[i].ttl == ttl
  }

  // Event i keeps its fingerprint alive at a given time.
  ghost predicate KeepsAlive<F>(log: seq<Event<F>>, i: nat, fingerprint: F, now: int)
    requires i < |log|
  {
    Recorded(log, i) && log[i].fingerprint == fingerprint && now < log[i].now + log[i].ttl
  }

  lemma RecordedInPrefix<F>(log: seq<Event<F>>, n: nat, i: nat)
    requires i < n <= |log|
    ensures Recorded(log[..n], i) == Recorded(log, i) && Dropped(log[..n], i) == Dropped(log, i)
  {
    assert log[..n][..i] == log[..i];
  }

  // A key is in the store until some time exactly when a recorded event keeps it alive.
  lemma {:induction false} StoreMeaning<F>(log: seq<Event<F>>, ttl: int, fingerprint: F, now: int)
    requires Chronological(log) && OneTtl(log, ttl)
    requires log != [] ==> log[|log| - 1].now <= now
    ensures (fingerprint in StoreAfter(log) && now < StoreAfter(log)[fingerprint]) <==>
            exists j: nat :: j < |log| && KeepsAlive(log, j, fingerprint, now)
  {
    if log != [] {
      var n := |log| - 1;
      var e, init := log[n], log[..n];
      StoreMeaning(init, ttl, fingerprint, now);
      assert Recorded(log, n) <==> !Exists(StoreAfter(init), e) && !e.setFails;
      forall j: nat | j < n
        ensures KeepsAlive(log, j, fingerprint, now) <==> KeepsAlive(init, j, fingerprint, now)
      {
        RecordedInPrefix(log, n, j);
      }
      if Recorded(log, n) && e.fingerprint == fingerprint {
        assert KeepsAlive(log, n, fingerprint, now) <==> now < e.now + ttl;
        forall j: nat | j < |log| && KeepsAlive(log, j, fingerprint, now)
          ensures now < e.now + ttl
        {
          assert log[j].now <= e.now;
        }
      } else {
        assert forall j: nat :: j < |log| && KeepsAlive(log, j, fingerprint, now) ==>
                 j < n && KeepsAlive(init, j, fingerprint, now);
        assert forall j: nat :: j < n && KeepsAlive(init, j, fingerprint, now) ==> KeepsAlive(log, j, fingerprint, now);
      }
    }
  }

  // Whatever has failed before: a check the store answered drops an alert exactly when an
  // earlier one with its fingerprint left, was recorded, and its cooldown has not passed.
  lemma DroppedIff<F>(log: seq<Event<F>>, ttl: int, i: nat)
    requires Chronological(log) && OneTtl(log, ttl) && i < |log| && log[i].probe == Answered
    ensures Dropped(log, i) <==>
            exists j: nat :: j < i && KeepsAlive(log, j, log[i].fingerprint, log[i].now)
  {
    var init := log[..i];
    StoreMeaning(init, ttl, log[i].fingerprint, log[i].now);
    forall j: nat | j < i
      ensures KeepsAlive(log, j, log[i].fingerprint, log[i].now) <==>
              KeepsAlive(init, j, log[i].fingerprint, log[i].now)
    {
      RecordedInPrefix(log, i, j);
    }
  }

  // Two alerts with one fingerprint that leave are at least a cooldown apart, whatever
  // fails otherwise, if the write of the first and the check of the second succeed.
  lemma EmittedAreCooldownApart<F>(log: seq<Event<F>>, ttl: int, i: nat, j: nat)
    requires Chronological(log) && OneTtl(log, ttl) && i < j < |log|
    requires log[i].fingerprint == log[j].fingerprint && !Dropped(log, i) && !Dropped(log, j)
    requires !log[i].setFails && log[j].probe == Answered
    ensures log[j].now >= log[i].now + ttl
  {
    DroppedIff(log, ttl, j);
    assert KeepsAlive(log, i, log[j].fingerprint, log[j].now) <==> log[j].now < log[i].now + ttl;
  }

  // And every one that a successful check drops has one that left inside the cooldown before it.
  lemma DroppedHasEmitted<F>(log: seq<Event<F>>, ttl: int, j: nat) returns (i: nat)
    requires Chronological(log) && OneTtl(log, ttl) && j < |log| && Dropped(log, j) && log[j].probe == Answered
    ensures i < j && log[i].fingerprint == log[j].fingerprint && !Dropped(log, i)
    ensures log[i].now <= log[j].now < log[i].now + ttl
  {
    DroppedIff(log, ttl, j);
    i :| i < j && KeepsAlive(log, i, log[j].fingerprint, log[j].now);
  }

  // ----- the store -----

  class DedupStore<F(==)> {
    var expiry: map<F, int>

    constructor ()
      ensures expiry == map[]
    {
      expiry := map[];
    }

    method Check(fingerprint: F, now: int, probe: Probe) returns (exists_: bool)
      ensures exists_ == match probe
                         case Answered => fingerprint in expiry && now < expiry[fingerprint]
                         case Broken(reported) => reported
    {
      match probe
      case Answered => exists_ := fingerprint in expiry && now < expiry[fingerprint];
      case Broken(reported) => exists_ := reported;
    }

    method SetWithTTL(fingerprint: F, ttl: int, now: int, fails: bool)
      modifies this
      ensures expiry == if fails then old(expiry) else old(expiry)[fingerprint := now + ttl]
    {
      if !fails {
        expiry := expiry[fingerprint := now + ttl];
      }
    }
  }

  // ----- one batch of alerts -----

  // The fingerprints that leave when a batch goes out at one time through a working store.
  function Leaving<F(==)>(expiry: map<F, int>, fingerprints: seq<F>, now: int, ttl: int): (set<F>, map<F, int>) {
    if fingerprints == [] then ({}, expiry)
    else
      var n := |fingerprints| - 1;
      var (out, store) := Leaving(expiry, fingerprints[..n], now, ttl);
      var e := Event(fingerprints[n], now, ttl, Answered, false);
      (if Exists(store, e) then out else out + {fingerprints[n]}, AfterEvent(store, e))
  }

  lemma LeavingSnoc<F>(expiry: map<F, int>, fingerprints: seq<F>, f: F, now: int, ttl: int)
    ensures var (out, store) := Leaving(expiry, fingerprints, now, ttl);
            var e := Event(f, now, ttl, Answered, false);
            Leaving(expiry, fingerprints + [f], now, ttl) ==
            (if Exists(store, e) then out else out + {f}, AfterEvent(store, e))
  {
    assert (fingerprints + [f])[..|fingerprints|] == fingerprints;
  }

  // They are the fingerprints of the batch that were not alive before it, in whatever
  // order the batch comes and however often it repeats one.
  lemma {:induction false} LeavingAreTheDead<F>(expiry: map<F, int>, fingerprints: seq<F>, now: int, ttl: int)
    ensures Leaving(expiry, fingerprints, now, ttl).0 ==
            set f | f in fingerprints && !(f in expiry && now < expiry[f])
    ensures forall f :: f !in fingerprints ==>
              (f in Leaving(expiry, fingerprints, now, ttl).1 <==> f in expiry) &&
              (f in expiry ==> Leaving(expiry, fingerprints, now, ttl).1[f] == expiry[f])
    ensures forall f :: f in expiry && now < expiry[f] ==>
              f in Leaving(expiry, fingerprints, now, ttl).1 &&
              Leaving(expiry, fingerprints, now, ttl).1[f] == expiry[f]
  {
    if fingerprints != [] {
      var n := |fingerprints| - 1;
      LeavingAreTheDead(expiry, fingerprints[..n], now, ttl);
      assert fingerprints == fingerprints[..n] + [fingerprints[n]];
    }
  }
}
