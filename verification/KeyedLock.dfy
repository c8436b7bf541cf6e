/** The keyed lock: one mutex a key, made by load-or-store, under every interleaving of
    any number of threads. */
module KeyedLock {
  /** Where a thread stands with one key. Between loading the mutex and acquiring it, and
      between finding it again and releasing it, others can run. */
  datatype Thread = Waiting(key: string, mutex: nat) | Holding(key: string, mutex: nat) | Releasing(key: string, mutex: nat)

  datatype State = State(mutexes: map<string, nat>, made: nat, owner: map<nat, nat>, threads: map<nat, Thread>)

  datatype Step = LoadOrStore(thread: nat, key: string) | Acquire(thread: nat) | Find(thread: nat) | Release(thread: nat)

  function Initial(): State {
    State(map[], 0, map[], map[])
  }

  /** Only the holder unlocks. A thread waits for, or holds, one key at a time. */
  predicate CanStep(s: State, e: Step) {
    match e
    case LoadOrStore(t, _) => t !in s.threads
    case Acquire(t) => t in s.threads && s.threads[t].Waiting? && s.threads[t].mutex !in s.owner
    case Find(t) => t in s.threads && s.threads[t].Holding? && s.threads[t].key in s.mutexes
    case Release(t) => t in s.threads && s.threads[t].Releasing?
  }

  /** Every call of load-or-store makes a mutex; the first one stored for a key stays. */
  function NextState(s: State, e: Step): State
    requires CanStep(s, e)
  {
    match e
    case LoadOrStore(t, k) =>
      var m := if k in s.mutexes then s.mutexes[k] else s.made;
      State(s.mutexes[k := m], s.made + 1, s.owner, s.threads[t := Waiting(k, m)])
    case Acquire(t) =>
      var m := s.threads[t].mutex;
      s.(owner := s.owner[m := t], threads := s.threads[t := Holding(s.threads[t].key, m)])
    case Find(t) =>
      var k := s.threads[t].key;
      s.(threads := s.threads[t := Releasing(k, s.mutexes[k])])
    case Release(t) =>
      s.(owner := s.owner - {s.threads[t].mutex}, threads := s.threads - {t})
  }

  predicate InSection(s: State, t: nat, k: string) {
    t in s.threads && s.threads[t].key == k && !s.threads[t].Waiting?
  }

  /** A key keeps its mutex, and no two keys share one. */
  predicate MapOk(s: State) {
    && (forall k :: k in s.mutexes ==> s.mutexes[k] < s.made)
    && (forall k, l :: k in s.mutexes && l in s.mutexes && s.mutexes[k] == s.mutexes[l] ==> k == l)
  }

  /** A thread has loaded its key's mutex, and owns it while in the section. */
  predicate ThreadOk(s: State, t: nat)
    requires t in s.threads
  {
    var th := s.threads[t];
    && th.key in s.mutexes && s.mutexes[th.key] == th.mutex
    && (!th.Waiting? ==> th.mutex in s.owner && s.owner[th.mutex] == t)
  }

  /** An owner is in the section of its mutex. */
  predicate OwnerOk(s: State, m: nat)
    requires m in s.owner
  {
    s.owner[m] in s.threads && s.threads[s.owner[m]].mutex == m && !s.threads[s.owner[m]].Waiting?
  }

  predicate Inv(s: State) {
    && MapOk(s)
    && (forall t :: t in s.threads ==> ThreadOk(s, t))
    && (forall m :: m in s.owner ==> OwnerOk(s, m))
  }

  lemma StepKeepsMap(s: State, e: Step)
    requires Inv(s) && CanStep(s, e)
    ensures MapOk(NextState(s, e))
    ensures forall k :: k in s.mutexes ==> k in NextState(s, e).mutexes && NextState(s, e).mutexes[k] == s.mutexes[k]
  {
  }

  lemma StepKeepsThread(s: State, e: Step, t: nat)
    requires Inv(s) && CanStep(s, e) && t in NextState(s, e).threads
    ensures ThreadOk(NextState(s, e), t)
  {
    StepKeepsMap(s, e);
    assert e.thread in s.threads ==> ThreadOk(s, e.thread);
    if t != e.thread {
      assert ThreadOk(s, t);
    }
  }

  lemma StepKeepsOwner(s: State, e: Step, m: nat)
    requires Inv(s) && CanStep(s, e) && m in NextState(s, e).owner
    ensures OwnerOk(NextState(s, e), m)
  {
    assert e.thread in s.threads ==> ThreadOk(s, e.thread);
    if m in s.owner && NextState(s, e).owner[m] == s.owner[m] {
      assert OwnerOk(s, m);
    }
  }

  /** What a step keeps, and that a key's mutex never changes. */
  lemma StepKeepsInv(s: State, e: Step)
    requires Inv(s) && CanStep(s, e)
    ensures Inv(NextState(s, e))
    ensures forall k :: k in s.mutexes ==> k in NextState(s, e).mutexes && NextState(s, e).mutexes[k] == s.mutexes[k]
  {
    StepKeepsMap(s, e);
    forall t | t in NextState(s, e).threads
      ensures ThreadOk(NextState(s, e), t)
    {
      StepKeepsThread(s, e, t);
    }
    forall m | m in NextState(s, e).owner
      ensures OwnerOk(NextState(s, e), m)
    {
      StepKeepsOwner(s, e, m);
    }
  }

  predicate ValidRun(s: State, steps: seq<Step>)
    decreases |steps|
  {
    steps == [] || (CanStep(s, steps[0]) && ValidRun(NextState(s, steps[0]), steps[1..]))
  }

  function After(s: State, steps: seq<Step>): State
    requires ValidRun(s, steps)
    decreases |steps|
  {
    if steps == [] then s else After(NextState(s, steps[0]), steps[1..])
  }

  lemma {:induction false} RunKeepsInv(s: State, steps: seq<Step>)
    requires Inv(s) && ValidRun(s, steps)
    ensures Inv(After(s, steps))
    ensures forall k :: k in s.mutexes ==> k in After(s, steps).mutexes && After(s, steps).mutexes[k] == s.mutexes[k]
    decreases |steps|
  {
    if steps != [] {
      StepKeepsInv(s, steps[0]);
      RunKeepsInv(NextState(s, steps[0]), steps[1..]);
    }
  }

  /** Mutual exclusion: no two threads are ever in the section of one key. */
  lemma MutualExclusion(steps: seq<Step>, t: nat, u: nat, k: string)
    requires ValidRun(Initial(), steps)
    requires InSection(After(Initial(), steps), t, k) && InSection(After(Initial(), steps), u, k)
    ensures t == u
  {
    RunKeepsInv(Initial(), steps);
    var s := After(Initial(), steps);
    assert ThreadOk(s, t) && ThreadOk(s, u);
  }

  /** One mutex a key for the whole run: threads that loaded the key at any two moments got
      the same one, and threads of different keys never share one. */
  lemma OneMutexPerKey(steps: seq<Step>, more: seq<Step>, t: nat, u: nat)
    requires ValidRun(Initial(), steps) && ValidRun(After(Initial(), steps), more)
    requires t in After(Initial(), steps).threads && u in After(After(Initial(), steps), more).threads
    ensures var a, b := After(Initial(), steps).threads[t], After(After(Initial(), steps), more).threads[u];
            a.mutex == b.mutex <==> a.key == b.key
  {
    RunKeepsInv(Initial(), steps);
    RunKeepsInv(After(Initial(), steps), more);
    var s, r := After(Initial(), steps), After(After(Initial(), steps), more);
    assert ThreadOk(s, t) && ThreadOk(r, u);
  }

  /** A waiting thread can go on exactly when no thread is in its key's section: no lock is
      lost, and other keys never block it. */
  lemma BlockedOnlyByOwnKey(steps: seq<Step>, t: nat)
    requires ValidRun(Initial(), steps)
    requires t in After(Initial(), steps).threads && After(Initial(), steps).threads[t].Waiting?
    ensures CanStep(After(Initial(), steps), Acquire(t))
       <==> forall u :: u in After(Initial(), steps).threads ==> !InSection(After(Initial(), steps), u, After(Initial(), steps).threads[t].key)
  {
    RunKeepsInv(Initial(), steps);
    var s := After(Initial(), steps);
    var m := s.threads[t].mutex;
    assert ThreadOk(s, t);
    if m in s.owner {
      assert OwnerOk(s, m) && ThreadOk(s, s.owner[m]);
      assert InSection(s, s.owner[m], s.threads[t].key);
    }
    forall u | u in s.threads && InSection(s, u, s.threads[t].key)
      ensures m in s.owner
    {
      assert ThreadOk(s, u);
    }
  }

  /** Unlocking finds the very mutex that was locked, and frees it. */
  lemma UnlockFreesOwnMutex(steps: seq<Step>, t: nat)
    requires ValidRun(Initial(), steps)
    requires t in After(Initial(), steps).threads && After(Initial(), steps).threads[t].Holding?
    ensures var s := After(Initial(), steps);
            && CanStep(s, Find(t))
            && NextState(s, Find(t)).threads[t].mutex == s.threads[t].mutex
            && s.threads[t].mutex !in NextState(NextState(s, Find(t)), Release(t)).owner
  {
    RunKeepsInv(Initial(), steps);
    assert ThreadOk(After(Initial(), steps), t);
  }

  /** The two steps of an unlock together. */
  lemma UnlockSteps(s: State, t: nat)
    requires Inv(s) && t in s.threads && s.threads[t].Holding?
    ensures s.threads[t].key in s.mutexes && s.mutexes[s.threads[t].key] == s.threads[t].mutex
    ensures CanStep(s, Find(t)) && CanStep(NextState(s, Find(t)), Release(t))
    ensures var r := NextState(NextState(s, Find(t)), Release(t));
            r == s.(owner := s.owner - {s.threads[t].mutex}, threads := s.threads - {t}) && Inv(r)
  {
    assert ThreadOk(s, t);
    StepKeepsInv(s, Find(t));
    StepKeepsInv(NextState(s, Find(t)), Release(t));
  }

  // ----- the lock object -----

  /** The shared map and the mutexes' owners. Lock is its two atomic steps; so is Unlock. */
  class InMemoryLocker {
    var syncedMap: map<string, nat>
    var made: nat
    var owner: map<nat, nat>
    ghost var threads: map<nat, Thread>

    ghost function View(): State
      reads this
    {
      State(syncedMap, made, owner, threads)
    }

    constructor ()
      ensures View() == Initial() && Inv(View())
    {
      syncedMap, made, owner, threads := map[], 0, map[], map[];
    }

    /** The first half of Lock. */
    method Load(t: nat, key: string) returns (mu: nat)
      requires Inv(View()) && CanStep(View(), LoadOrStore(t, key))
      modifies this
      ensures View() == NextState(old(View()), LoadOrStore(t, key)) && Inv(View())
      ensures threads[t] == Waiting(key, mu)
    {
      StepKeepsInv(View(), LoadOrStore(t, key));
      var newMutex := made;
      made := made + 1;
      if key !in syncedMap {
        syncedMap := syncedMap[key := newMutex];
      }
      mu := syncedMap[key];
      threads := threads[t := Waiting(key, mu)];
      assert old(View()).mutexes[key := mu] == syncedMap;
    }

    /** The second half of Lock: it goes through only while nobody owns the mutex. */
    method TryAcquire(t: nat, mu: nat) returns (acquired: bool)
      requires Inv(View()) && t in threads && threads[t].Waiting? && threads[t].mutex == mu
      modifies this
      ensures acquired <==> CanStep(old(View()), Acquire(t))
      ensures View() == (if acquired then NextState(old(View()), Acquire(t)) else old(View())) && Inv(View())
    {
      acquired := mu !in owner;
      if acquired {
        StepKeepsInv(View(), Acquire(t));
        owner := owner[mu := t];
        threads := threads[t := Holding(threads[t].key, mu)];
      }
    }

    /** Unlock by the holder: load the key's mutex and release it. */
    method Unlock(t: nat, key: string)
      requires Inv(View()) && t in threads && threads[t].Holding? && threads[t].key == key
      modifies this
      ensures CanStep(old(View()), Find(t))
      ensures View() == NextState(NextState(old(View()), Find(t)), Release(t)) && Inv(View())
    {
      UnlockSteps(View(), t);
      if key in syncedMap {
        var mu := syncedMap[key];
        owner := owner - {mu};
        threads := threads - {t};
      }
    }
  }
}
