/**
 * The hit tracker: visits reported by request handlers are collected in
 * windows, each window is folded into a key -> count map, and one
 * `hits += count` update per distinct key is sent to the store, one at a time.
 *
 * The channel and the 5-second timer are not modelled: the stream the
 * receiver drains is given as the sequence of windows the timer cut it into.
 */
module Hit {

  /** One window: the key that woke the loop and the keys that arrived before the timer fired. */
  datatype Window = Window(initial: string, collected: seq<string>) {
    function Keys(): seq<string> {
      [initial] + collected
    }
  }

  /** One `SET hits = hits + count` update for one key. */
  datatype Update = Update(key: string, hits: nat)

  /** An update as issued, with the store's answer; an attempt with `ok == false` is the logged error. */
  datatype Attempt = Attempt(update: Update, ok: bool)

  /** The hits the store holds for `k`, zero when it holds none. */
  function Get(h: map<string, int>, k: string): int {
    if k in h then h[k] else 0
  }

  /** The coalesced counts of a sequence of visits: each key that occurs, with its number of occurrences. */
  function Tally(s: seq<string>): (counts: map<string, nat>)
    ensures counts.Keys == set k | k in s
    ensures forall k :: k in counts ==> counts[k] == multiset(s)[k] >= 1
  {
    map k | k in s :: multiset(s)[k]
  }

  /** The sum of the counts of a map. */
  ghost function Total(m: map<string, nat>): nat
    decreases |m|
  {
    if m == map[] then 0
    else
      var k :| k in m;
      m[k] + Total(m - {k})
  }

  /** Total does not depend on which key it takes first. */
  lemma {:induction false} TotalRemove(m: map<string, nat>, x: string)
    requires x in m
    ensures Total(m) == m[x] + Total(m - {x})
    decreases |m|
  {
    var k :| k in m && Total(m) == m[k] + Total(m - {k});
    if k != x {
      assert m - {k} - {x} == m - {x} - {k};
      TotalRemove(m - {k}, x);
      TotalRemove(m - {x}, k);
    }
  }

  /** Raising one count by d raises the total by d. */
  lemma TotalBump(m: map<string, nat>, x: string, d: nat)
    ensures Total(m[x := (if x in m then m[x] else 0) + d]) == Total(m) + d
  {
    var m' := m[x := (if x in m then m[x] else 0) + d];
    TotalRemove(m', x);
    if x in m {
      TotalRemove(m, x);
      assert m' - {x} == m - {x};
    } else {
      assert m' - {x} == m;
    }
  }

  /** Appending one visit raises that key's count by one and leaves the others alone. */
  lemma TallySnoc(front: seq<string>, x: string)
    ensures Tally(front + [x]) == Tally(front)[x := (if x in Tally(front) then Tally(front)[x] else 0) + 1]
  {
    var s, t := front + [x], Tally(front);
    var u := t[x := (if x in t then t[x] else 0) + 1];
    assert multiset(s) == multiset(front) + multiset{x};
    assert Tally(s).Keys == u.Keys;
    forall k | k in u ensures Tally(s)[k] == u[k] {
      if k != x {
        assert k in front;
      }
    }
  }

  /** TallySnoc, for a non-empty sequence split before its last visit. */
  lemma TallyLast(s: seq<string>)
    requires s != []
    ensures var front, x := s[..|s| - 1], s[|s| - 1];
            Tally(s) == Tally(front)[x := (if x in Tally(front) then Tally(front)[x] else 0) + 1]
  {
    assert s == s[..|s| - 1] + [s[|s| - 1]];
    TallySnoc(s[..|s| - 1], s[|s| - 1]);
  }

  /** The counts of a window add up to the window's length: no visit is lost or counted twice. */
  lemma {:induction false} TallyTotal(s: seq<string>)
    ensures Total(Tally(s)) == |s|
  {
    if s == [] {
      assert Tally(s) == map[];
    } else {
      var front, x := s[..|s| - 1], s[|s| - 1];
      TallyTotal(front);
      TallyLast(s);
      TotalBump(Tally(front), x, 1);
    }
  }

  /** The counts depend only on which visits the window holds, not on their order. */
  lemma TallyOrderFree(a: seq<string>, b: seq<string>)
    requires multiset(a) == multiset(b)
    ensures Tally(a) == Tally(b)
  {
    assert forall k :: k in a <==> k in multiset(b) by {
      forall k ensures k in a <==> k in multiset(a) { }
    }
  }

  /**
   * The fold of one window into a key -> count map, one entry update per
   * visit, as `run` does before flushing.
   */
  method Coalesce(w: Window) returns (counts: map<string, nat>)
    ensures counts == Tally(w.Keys())
  {
    var keys := w.Keys();
    counts := map[];
    for i := 0 to |keys|
      invariant counts.Keys == set k | k in keys[..i]
      invariant forall k :: k in counts ==> counts[k] == multiset(keys[..i])[k]
    {
      var k := keys[i];
      assert keys[..i + 1] == keys[..i] + [k];
      counts := counts[k := (if k in counts then counts[k] else 0) + 1];
    }
    assert keys[..|keys|] == keys;
  }

  /** The store after one attempt: a successful update adds its count to its key, a failed one changes nothing. */
  function Step(h: map<string, int>, a: Attempt): map<string, int>
  {
    if a.ok then h[a.update.key := Get(h, a.update.key) + a.update.hits] else h
  }

  /** The store after a sequence of attempts, applied in order. */
  function Apply(h: map<string, int>, attempts: seq<Attempt>): map<string, int>
  {
    if attempts == [] then h
    else Step(Apply(h, attempts[..|attempts| - 1]), attempts[|attempts| - 1])
  }

  /** The hits that the successful attempts in `attempts` add to key `k`. */
  function Credited(attempts: seq<Attempt>, k: string): nat
  {
    if attempts == [] then 0
    else
      var a := attempts[|attempts| - 1];
      Credited(attempts[..|attempts| - 1], k) + (if a.ok && a.update.key == k then a.update.hits else 0)
  }

  /** Each key ends with what it held plus what the successful attempts for it carried. */
  lemma {:induction false} ApplyCredits(h: map<string, int>, attempts: seq<Attempt>, k: string)
    ensures Get(Apply(h, attempts), k) == Get(h, k) + Credited(attempts, k)
  {
    if attempts != [] {
      ApplyCredits(h, attempts[..|attempts| - 1], k);
    }
  }

  lemma {:induction false} ApplyConcat(h: map<string, int>, a: seq<Attempt>, b: seq<Attempt>)
    ensures Apply(h, a + b) == Apply(Apply(h, a), b)
  {
    if b == [] {
      assert a + b == a;
    } else {
      assert (a + b)[..|a + b| - 1] == a + b[..|b| - 1];
      ApplyConcat(h, a, b[..|b| - 1]);
    }
  }

  lemma {:induction false} CreditedConcat(a: seq<Attempt>, b: seq<Attempt>, k: string)
    ensures Credited(a + b, k) == Credited(a, k) + Credited(b, k)
  {
    if b == [] {
      assert a + b == a;
    } else {
      assert (a + b)[..|a + b| - 1] == a + b[..|b| - 1];
      CreditedConcat(a, b[..|b| - 1], k);
    }
  }

  /** The keys a sequence of attempts updates. */
  function KeysOf(attempts: seq<Attempt>): set<string>
  {
    if attempts == [] then {}
    else KeysOf(attempts[..|attempts| - 1]) + {attempts[|attempts| - 1].update.key}
  }

  /** Each attempt's key is among the sequence's keys. */
  lemma {:induction false} KeysOfHas(attempts: seq<Attempt>, i: nat)
    requires i < |attempts|
    ensures attempts[i].update.key in KeysOf(attempts)
  {
    if i < |attempts| - 1 {
      KeysOfHas(attempts[..|attempts| - 1], i);
    }
  }

  /** A sequence of attempts updates at most as many keys as it has attempts. */
  lemma {:induction false} KeysOfSize(attempts: seq<Attempt>)
    ensures |KeysOf(attempts)| <= |attempts|
  {
    if attempts != [] {
      KeysOfSize(attempts[..|attempts| - 1]);
    }
  }

  /**
   * `batch` is a flush of `counts`: it updates exactly the keys of `counts`,
   * each with that key's count, using as many updates as there are keys.
   */
  ghost predicate IsFlushOf(batch: seq<Attempt>, counts: map<string, nat>)
  {
    && KeysOf(batch) == counts.Keys
    && |batch| == |counts|
    && (forall i :: 0 <= i < |batch| ==> batch[i].update.key in counts && batch[i].update.hits == counts[batch[i].update.key])
  }

  ghost predicate AllSucceed(attempts: seq<Attempt>)
  {
    forall i :: 0 <= i < |attempts| ==> attempts[i].ok
  }

  /** Issuing one more update, for a key not yet flushed, extends a flush by that key. */
  lemma FlushSnoc(batch: seq<Attempt>, counts: map<string, nat>, a: Attempt)
    requires IsFlushOf(batch, counts) && a.update.key !in counts
    ensures IsFlushOf(batch + [a], counts[a.update.key := a.update.hits])
  {
    assert (batch + [a])[..|batch|] == batch;
  }

  /** One more update, for a key still remaining, keeps the loop of a flush on track. */
  lemma FlushStep(h: map<string, int>, before: seq<Attempt>, batch: seq<Attempt>, counts: map<string, nat>, remaining: set<string>, a: Attempt)
    requires IsFlushOf(batch, counts - remaining) && a.update.key in remaining
    requires a.update.key in counts && a.update.hits == counts[a.update.key]
    ensures IsFlushOf(batch + [a], counts - (remaining - {a.update.key}))
    ensures Apply(h, batch + [a]) == Step(Apply(h, batch), a)
    ensures (before + batch) + [a] == before + (batch + [a])
  {
    FlushSnoc(batch, counts - remaining, a);
    assert counts - (remaining - {a.update.key}) == (counts - remaining)[a.update.key := a.update.hits];
    assert (batch + [a])[..|batch|] == batch;
  }

  /** Dropping the last update of a flush leaves a flush of the other keys. */
  lemma FlushFront(batch: seq<Attempt>, counts: map<string, nat>)
    requires IsFlushOf(batch, counts) && batch != []
    ensures IsFlushOf(batch[..|batch| - 1], counts - {batch[|batch| - 1].update.key})
  {
    var front, last := batch[..|batch| - 1], batch[|batch| - 1];
    KeysOfSize(front);
    assert last.update.key !in KeysOf(front);
    forall i | 0 <= i < |front| ensures front[i].update.key != last.update.key {
      KeysOfHas(front, i);
    }
  }

  /** A flush never updates one key twice. */
  lemma {:induction false} FlushDistinct(batch: seq<Attempt>, counts: map<string, nat>, i: nat, j: nat)
    requires IsFlushOf(batch, counts) && i < j < |batch|
    ensures batch[i].update.key != batch[j].update.key
  {
    if j < |batch| - 1 {
      FlushFront(batch, counts);
      FlushDistinct(batch[..|batch| - 1], counts - {batch[|batch| - 1].update.key}, i, j);
    } else {
      FlushFront(batch, counts);
      KeysOfHas(batch[..|batch| - 1], i);
    }
  }

  /** When every update of a flush succeeds, each key is credited exactly its count. */
  lemma {:induction false} FlushCredits(batch: seq<Attempt>, counts: map<string, nat>, k: string)
    requires IsFlushOf(batch, counts) && AllSucceed(batch)
    ensures Credited(batch, k) == if k in counts then counts[k] else 0
  {
    if batch == [] {
      assert |counts| == 0;
    } else {
      var front, last := batch[..|batch| - 1], batch[|batch| - 1];
      FlushFront(batch, counts);
      assert AllSucceed(front);
      FlushCredits(front, counts - {last.update.key}, k);
    }
  }

  /** The concatenation of the flushes of a run, in order. */
  function Concat(batches: seq<seq<Attempt>>): seq<Attempt>
  {
    if batches == [] then [] else Concat(batches[..|batches| - 1]) + batches[|batches| - 1]
  }

  /** Every visit of a run, window after window. */
  function Flatten(windows: seq<Window>): seq<string>
  {
    if windows == [] then [] else Flatten(windows[..|windows| - 1]) + windows[|windows| - 1].Keys()
  }

  /** `batches` are the flushes of `windows`, one per window, in order. */
  ghost predicate IsRunOf(batches: seq<seq<Attempt>>, windows: seq<Window>)
  {
    && |batches| == |windows|
    && (windows != [] ==>
          && IsRunOf(batches[..|batches| - 1], windows[..|windows| - 1])
          && IsFlushOf(batches[|batches| - 1], Tally(windows[|windows| - 1].Keys())))
  }

  /** Flushing the next window extends a run of the windows before it by that window. */
  lemma RunSnoc(batches: seq<seq<Attempt>>, windows: seq<Window>, i: nat, batch: seq<Attempt>)
    requires i < |windows| && IsRunOf(batches, windows[..i]) && IsFlushOf(batch, Tally(windows[i].Keys()))
    ensures IsRunOf(batches + [batch], windows[..i + 1])
  {
    assert (batches + [batch])[..|batches|] == batches;
    assert windows[..i + 1][..i] == windows[..i];
  }

  /** The i-th flush of a run is the flush of the i-th window. */
  lemma {:induction false} RunAt(batches: seq<seq<Attempt>>, windows: seq<Window>, i: nat)
    requires IsRunOf(batches, windows) && i < |windows|
    ensures IsFlushOf(batches[i], Tally(windows[i].Keys()))
  {
    if i < |windows| - 1 {
      RunAt(batches[..|batches| - 1], windows[..|windows| - 1], i);
    }
  }

  /** The attempts and store after one more window's flush. */
  lemma RunStep(h: map<string, int>, before: seq<Attempt>, batches: seq<seq<Attempt>>, batch: seq<Attempt>)
    ensures Concat(batches + [batch]) == Concat(batches) + batch
    ensures Apply(h, Concat(batches + [batch])) == Apply(Apply(h, Concat(batches)), batch)
    ensures before + Concat(batches + [batch]) == (before + Concat(batches)) + batch
  {
    assert (batches + [batch])[..|batches|] == batches;
    ApplyConcat(h, Concat(batches), batch);
  }

  lemma AllSucceedSplit(a: seq<Attempt>, b: seq<Attempt>)
    requires AllSucceed(a + b)
    ensures AllSucceed(a) && AllSucceed(b)
  {
    forall i | 0 <= i < |b| ensures b[i].ok {
      assert (a + b)[|a| + i] == b[i];
    }
    forall i | 0 <= i < |a| ensures a[i].ok {
      assert (a + b)[i] == a[i];
    }
  }

  /**
   * If no update of a run fails, each key's stored hits grow by exactly the
   * number of visits to it across all windows.
   */
  lemma RunTotals(h: map<string, int>, windows: seq<Window>, batches: seq<seq<Attempt>>, k: string)
    requires IsRunOf(batches, windows) && AllSucceed(Concat(batches))
    ensures Get(Apply(h, Concat(batches)), k) == Get(h, k) + multiset(Flatten(windows))[k]
  {
    ApplyCredits(h, Concat(batches), k);
    RunCredits(windows, batches, k);
  }

  lemma {:induction false} RunCredits(windows: seq<Window>, batches: seq<seq<Attempt>>, k: string)
    requires IsRunOf(batches, windows) && AllSucceed(Concat(batches))
    ensures Credited(Concat(batches), k) == multiset(Flatten(windows))[k]
  {
    if windows != [] {
      var n := |windows| - 1;
      var front, last := Concat(batches[..n]), batches[n];
      assert Concat(batches) == front + last;
      AllSucceedSplit(front, last);
      RunCredits(windows[..n], batches[..n], k);
      CreditedConcat(front, last, k);
      FlushCredits(last, Tally(windows[n].Keys()), k);
      assert Flatten(windows) == Flatten(windows[..n]) + windows[n].Keys();
    }
  }

  /**
   * The sending half: request handlers report visits through it. A send
   * that fails (the handle was closed) is discarded, so tracking never fails
   * its caller.
   */
  class HitTrackerSender {
    /** Every key the channel accepted from this handle, in order. */
    var sent: seq<string>
    var connected: bool

    constructor ()
      ensures sent == [] && connected
    {
      sent := [];
      connected := true;
    }

    method Track(key: string)
      modifies this
      ensures connected == old(connected)
      ensures sent == if old(connected) then old(sent) + [key] else old(sent)
    {
      if connected {
        sent := sent + [key];
      }
    }

    /** Disconnects the handle: the receiver sees the end of the stream once it has drained it. */
    method Close()
      modifies this
      ensures !connected && sent == old(sent)
    {
      connected := false;
    }
  }

  /**
   * The receiving half. `hits` is the `hits` attribute the store holds per
   * key (a key whose item is missing or has no `hits` is absent);
   * `attempts` records every update issued, in order, with the store's
   * answer. `succeeds` says whether the store is reachable and accepts the
   * n-th update; the store refuses in any case an update whose key has no
   * `hits` to add to.
   */
  class HitTrackerReceiver {
    var hits: map<string, int>
    var attempts: seq<Attempt>
    const succeeds: nat -> bool
    /** The hits the store held when the receiver was created. */
    ghost const initialHits: map<string, int>

    /**
     * Only updates the store accepted are logged as successful, and the store
     * holds what the logged updates, applied in order, made of what it held
     * at the start.
     */
    ghost predicate Valid()
      reads this
    {
      && (forall i :: 0 <= i < |attempts| ==> attempts[i].ok ==> succeeds(i))
      && hits == Apply(initialHits, attempts)
    }

    constructor (hits: map<string, int>, succeeds: nat -> bool)
      ensures Valid()
      ensures this.hits == hits && this.succeeds == succeeds && attempts == [] && initialHits == hits
    {
      this.hits := hits;
      this.succeeds := succeeds;
      initialHits := hits;
      attempts := [];
    }

    /**
     * Sends one `hits += count` update for `key` and waits for the store's
     * answer; a failure is only logged (recorded as a failed attempt).
     */
    method Increment(key: string, count: nat) returns (attempt: Attempt)
      requires Valid()
      modifies this
      ensures Valid()
      ensures attempt == Attempt(Update(key, count), succeeds(|old(attempts)|) && key in old(hits))
      ensures attempts == old(attempts) + [attempt]
      ensures attempt.ok ==> hits == old(hits)[key := old(hits)[key] + count]
      ensures !attempt.ok ==> hits == old(hits)
      ensures hits.Keys == old(hits).Keys
      ensures hits == Step(old(hits), attempt)
    {
      attempt := Attempt(Update(key, count), succeeds(|attempts|) && key in hits);
      if attempt.ok {
        hits := hits[key := Get(hits, key) + count];
      }
      assert (attempts + [attempt])[..|attempts|] == attempts;
      attempts := attempts + [attempt];
    }

    /**
     * Issues one update per key of `counts`, in no particular order, each
     * finished before the next starts; a failed update is skipped and the
     * rest are still issued.
     */
    method Flush(counts: map<string, nat>) returns (ghost batch: seq<Attempt>)
      requires Valid()
      modifies this
      ensures Valid()
      ensures attempts == old(attempts) + batch
      ensures IsFlushOf(batch, counts)
      ensures hits == Apply(old(hits), batch)
      ensures hits.Keys == old(hits).Keys
    {
      batch := [];
      var remaining := counts.Keys;
      while remaining != {}
        invariant Valid()
        invariant remaining <= counts.Keys
        invariant attempts == old(attempts) + batch
        invariant hits == Apply(old(hits), batch)
        invariant hits.Keys == old(hits).Keys
        invariant IsFlushOf(batch, counts - remaining)
        decreases remaining
      {
        var k :| k in remaining;
        var attempt := Increment(k, counts[k]);
        FlushStep(old(hits), old(attempts), batch, counts, remaining, attempt);
        batch := batch + [attempt];
        remaining := remaining - {k};
      }
      assert counts - remaining == counts;
    }

    /**
     * Drains the stream window by window until it ends: folds each window
     * into counts and flushes them. It never reports an error.
     */
    method Run(windows: seq<Window>) returns (ghost batches: seq<seq<Attempt>>)
      requires Valid()
      modifies this
      ensures Valid()
      ensures IsRunOf(batches, windows)
      ensures attempts == old(attempts) + Concat(batches)
      ensures hits == Apply(old(hits), Concat(batches))
      ensures hits.Keys == old(hits).Keys
      ensures windows == [] ==> attempts == old(attempts) && hits == old(hits)
    {
      batches := [];
      var i := 0;
      while i < |windows|
        invariant Valid()
        invariant 0 <= i <= |windows|
        invariant IsRunOf(batches, windows[..i])
        invariant attempts == old(attempts) + Concat(batches)
        invariant hits == Apply(old(hits), Concat(batches))
        invariant hits.Keys == old(hits).Keys
      {
        var counts := Coalesce(windows[i]);
        var batch := Flush(counts);
        RunSnoc(batches, windows, i, batch);
        RunStep(old(hits), old(attempts), batches, batch);
        batches := batches + [batch];
        i := i + 1;
      }
      assert windows[..i] == windows;
    }
  }
}
