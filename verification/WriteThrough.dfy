/** The write-through stores: a mutex taken twice, once to mutate and once to save, under any
    interleaving of threads, failed saves, panics and crashes. */
module WriteThrough {
  import opened Prelude

  datatype Outcome<S> = Outcome(store: S, ok: bool)

  /** What a caller runs on the store while the mutex is held. */
  type Closure<!S> = S -> Outcome<S>

  datatype Phase<!S> =
    | WantsLock(f: Closure<S>)
    | Holding(f: Closure<S>)
    | Unsaved(version: nat)
    | Saving(version: nat)
    | Wrote(version: nat)
    | ReturnedOk(version: nat)
    | ReturnedErr

  /** The temporary file: missing, cut short, or whole. */
  datatype Temporary<S> = Missing | Torn | Whole(store: S)

  datatype World<!S> = World(
    empty: S, mem: S, file: Option<S>, tmp: Temporary<S>,
    lock: Option<nat>, poisoned: bool, threads: map<nat, Phase<S>>,
    // What has happened: the closures that returned Ok, in order; how many of them the file
    // holds; the versions of calls that returned Ok; and of calls that mutated and then failed.
    initial: S, log: seq<Closure<S>>, saved: nat, oks: set<nat>, failed: set<nat>)

  datatype Action<!S> =
    | Call(t: nat, f: Closure<S>)
    | Acquire(t: nat)
    | Mutate(t: nat)
    | Panic(t: nat, ruined: S)
    | Reacquire(t: nat)
    | WriteTmp(t: nat)
    | Rename(t: nat)
    | FailSave(t: nat, left: Temporary<S>)
    | Crash(left: Temporary<S>)

  function Load<S>(w: World<S>): S { if w.file.Some? then w.file.value else w.empty }

  /** The store after these closures, one after the other. */
  function Replay<S>(initial: S, log: seq<Closure<S>>): S {
    if log == [] then initial else log[|log| - 1](Replay(initial, log[..|log| - 1])).store
  }

  ghost predicate Enabled<S(!new)>(w: World<S>, a: Action<S>) {
    match a
    case Call(t, _) => t !in w.threads
    case Acquire(t) => t in w.threads && w.threads[t].WantsLock? && w.lock.None?
    case Mutate(t) => t in w.threads && w.threads[t].Holding?
    case Panic(t, _) => t in w.threads && (w.threads[t].Holding? || w.threads[t].Saving?)
    case Reacquire(t) => t in w.threads && w.threads[t].Unsaved? && w.lock.None?
    case WriteTmp(t) => t in w.threads && w.threads[t].Saving?
    case Rename(t) => t in w.threads && w.threads[t].Wrote? && w.tmp.Whole?
    case FailSave(t, left) => t in w.threads && (w.threads[t].Saving? || (w.threads[t].Wrote? && left == w.tmp))
    case Crash(left) => left == w.tmp || left == Torn
  }

  ghost function Apply<S(!new)>(w: World<S>, a: Action<S>): World<S>
    requires Enabled(w, a)
  {
    match a
    case Call(t, f) => w.(threads := w.threads[t := WantsLock(f)])
    case Acquire(t) =>
      if w.poisoned then w.(threads := w.threads[t := ReturnedErr])
      else w.(lock := Some(t), threads := w.threads[t := Holding(w.threads[t].f)])
    case Mutate(t) =>
      var f := w.threads[t].f;
      var r := f(w.mem);
      if r.ok then
        w.(mem := r.store, lock := None, log := w.log + [f], threads := w.threads[t := Unsaved(|w.log| + 1)])
      else w.(mem := r.store, lock := None, threads := w.threads[t := ReturnedErr])
    case Panic(t, ruined) =>
      var u := w.(lock := None, poisoned := true, threads := w.threads[t := ReturnedErr]);
      if w.threads[t].Holding? then u.(mem := ruined) else u.(failed := w.failed + {w.threads[t].version})
    case Reacquire(t) =>
      var v := w.threads[t].version;
      if w.poisoned then w.(threads := w.threads[t := ReturnedErr], failed := w.failed + {v})
      else w.(lock := Some(t), threads := w.threads[t := Saving(v)])
    case WriteTmp(t) => w.(tmp := Whole(w.mem), threads := w.threads[t := Wrote(w.threads[t].version)])
    case Rename(t) =>
      var v := w.threads[t].version;
      w.(file := Some(w.tmp.store), tmp := Missing, lock := None, threads := w.threads[t := ReturnedOk(v)],
         saved := |w.log|, oks := w.oks + {v})
    case FailSave(t, left) =>
      w.(tmp := left, lock := None, threads := w.threads[t := ReturnedErr], failed := w.failed + {w.threads[t].version})
    case Crash(left) =>
      w.(tmp := left, mem := Load(w), lock := None, poisoned := false, threads := map[],
         log := if w.saved <= |w.log| then w.log[..w.saved] else w.log, failed := {})
  }

  /** The closure leaves the store as it was when it returns an error. */
  ghost predicate Honest<S(!new)>(f: Closure<S>) { forall s :: !f(s).ok ==> f(s).store == s }

  ghost predicate HonestAction<S(!new)>(a: Action<S>) { a.Call? ==> Honest(a.f) }

  predicate Owns<S>(p: Phase<S>) { p.Holding? || p.Saving? || p.Wrote? }

  predicate Pending<S>(p: Phase<S>) { p.Unsaved? || p.Saving? || p.Wrote? }

  // -------- What every step keeps --------

  ghost predicate MemoryIsReplay<S>(w: World<S>) { !w.poisoned ==> w.mem == Replay(w.initial, w.log) }

  /** The file holds the store as it was after the first saved mutations. */
  ghost predicate FileIsPrefix<S>(w: World<S>) {
    w.saved <= |w.log| && Load(w) == Replay(w.initial, w.log[..w.saved])
  }

  ghost predicate LockIsExclusive<S>(w: World<S>) {
    && (forall t :: t in w.threads && Owns(w.threads[t]) ==> w.lock == Some(t) && !w.poisoned)
    && (w.lock.Some? ==> w.lock.value in w.threads && Owns(w.threads[w.lock.value]))
  }

  ghost predicate WrittenIsMemory<S>(w: World<S>) {
    forall t :: t in w.threads && w.threads[t].Wrote? ==> w.tmp == Whole(w.mem)
  }

  ghost predicate ThreadsAreHonest<S(!new)>(w: World<S>) {
    forall t :: t in w.threads && (w.threads[t].WantsLock? || w.threads[t].Holding?) ==> Honest(w.threads[t].f)
  }

  ghost predicate VersionsExist<S>(w: World<S>) {
    forall t :: t in w.threads && Pending(w.threads[t]) ==> w.threads[t].version <= |w.log|
  }

  /** Every call that returned Ok is in the file. */
  ghost predicate OksAreSaved<S>(w: World<S>) { forall k :: k in w.oks ==> k <= w.saved }

  ghost predicate HasPending<S>(w: World<S>, k: nat) {
    exists t :: t in w.threads && Pending(w.threads[t]) && w.threads[t].version == k
  }

  /** A mutation missing from the file belongs to a call still on its way, or to one that failed. */
  ghost predicate GapsAreExplained<S>(w: World<S>) {
    forall k: nat :: w.saved < k <= |w.log| ==> k in w.failed || HasPending(w, k)
  }

  ghost predicate Inv<S(!new)>(w: World<S>) {
    && MemoryIsReplay(w) && FileIsPrefix(w) && LockIsExclusive(w) && WrittenIsMemory(w)
    && ThreadsAreHonest(w) && VersionsExist(w) && OksAreSaved(w) && GapsAreExplained(w)
  }

  ghost predicate Starts<S>(w: World<S>) {
    && w.threads == map[] && w.lock == None && !w.poisoned && w.log == [] && w.saved == 0 && w.oks == {}
    && w.initial == w.mem == Load(w)
  }

  lemma StartsInv<S(!new)>(w: World<S>)
    requires Starts(w)
    ensures Inv(w)
  {
  }

  lemma ReplayNext<S(!new)>(initial: S, log: seq<Closure<S>>, f: Closure<S>)
    ensures Replay(initial, log + [f]) == f(Replay(initial, log)).store
  {
    assert (log + [f])[..|log|] == log;
  }

  lemma MemoryKept<S(!new)>(w: World<S>, a: Action<S>)
    requires Inv(w) && Enabled(w, a)
    ensures MemoryIsReplay(Apply(w, a))
  {
    if a.Mutate? {
      ReplayNext(w.initial, w.log, w.threads[a.t].f);
    }
  }

  lemma FileKept<S(!new)>(w: World<S>, a: Action<S>)
    requires Inv(w) && Enabled(w, a)
    ensures FileIsPrefix(Apply(w, a))
  {
    var u := Apply(w, a);
    if a.Mutate? && |u.log| > |w.log| {
      assert u.log[..w.saved] == w.log[..w.saved];
    } else if a.Rename? {
      assert w.log[..|w.log|] == w.log;
    } else if a.Crash? {
      assert u.log[..w.saved] == w.log[..w.saved];
    }
  }

  lemma LockKept<S(!new)>(w: World<S>, a: Action<S>)
    requires Inv(w) && Enabled(w, a)
    ensures LockIsExclusive(Apply(w, a)) && WrittenIsMemory(Apply(w, a))
  {
  }

  lemma VersionsKept<S(!new)>(w: World<S>, a: Action<S>)
    requires Inv(w) && Enabled(w, a) && HonestAction(a)
    ensures ThreadsAreHonest(Apply(w, a)) && VersionsExist(Apply(w, a)) && OksAreSaved(Apply(w, a))
  {
  }

  lemma GapsKept<S(!new)>(w: World<S>, a: Action<S>)
    requires Inv(w) && Enabled(w, a)
    ensures GapsAreExplained(Apply(w, a))
  {
    var u := Apply(w, a);
    forall k: nat | u.saved < k <= |u.log| ensures k in u.failed || HasPending(u, k) {
      if k <= |w.log| && HasPending(w, k) {
        var t :| t in w.threads && Pending(w.threads[t]) && w.threads[t].version == k;
        if t in u.threads && Pending(u.threads[t]) {
          assert HasPending(u, k);
        }
      } else if a.Mutate? && k == |w.log| + 1 {
        assert Pending(u.threads[a.t]);
      }
    }
  }

  /** Every action of every thread keeps the invariant; the saved prefix never shrinks or changes,
      and no call that returned Ok is forgotten. */
  lemma StepKeeps<S(!new)>(w: World<S>, a: Action<S>)
    requires Inv(w) && Enabled(w, a) && HonestAction(a)
    ensures var u := Apply(w, a);
      && Inv(u) && w.initial == u.initial
      && w.saved <= u.saved && w.saved <= |u.log| && u.log[..w.saved] == w.log[..w.saved] && w.oks <= u.oks
  {
    MemoryKept(w, a);
    FileKept(w, a);
    LockKept(w, a);
    VersionsKept(w, a);
    GapsKept(w, a);
  }

  // -------- Whole runs --------

  ghost predicate Runs<S(!new)>(w: World<S>, actions: seq<Action<S>>, last: World<S>)
    decreases |actions|
  {
    if actions == [] then last == w
    else Enabled(w, actions[0]) && Runs(Apply(w, actions[0]), actions[1..], last)
  }

  /** After any run of any number of threads, with any failed saves, panics and crashes: the file
      holds the store as it was after some number of the successful mutations, that number and
      those mutations only ever grow, and they include every call that returned Ok. */
  lemma {:induction false} Durability<S(!new)>(w: World<S>, actions: seq<Action<S>>, last: World<S>)
    requires Inv(w) && Runs(w, actions, last) && forall i :: 0 <= i < |actions| ==> HonestAction(actions[i])
    ensures Inv(last) && last.initial == w.initial
    ensures w.saved <= last.saved <= |last.log| && last.log[..w.saved] == w.log[..w.saved]
    ensures Load(last) == Replay(w.initial, last.log[..last.saved])
    ensures w.oks <= last.oks && forall k :: k in last.oks ==> k <= last.saved
    decreases |actions|
  {
    if actions != [] {
      StepKeeps(w, actions[0]);
      var u := Apply(w, actions[0]);
      Durability(u, actions[1..], last);
      assert last.log[..w.saved] == last.log[..u.saved][..w.saved] == u.log[..u.saved][..w.saved];
    }
  }

  /** The file is the memory whenever no call is between its mutation and the end of its save,
      and no call since the last save has failed after mutating. */
  lemma FileIsMemory<S(!new)>(w: World<S>)
    requires Inv(w) && !w.poisoned
    requires forall t :: t in w.threads ==> !Pending(w.threads[t])
    requires forall k :: k in w.failed ==> k <= w.saved
    ensures Load(w) == w.mem
  {
    assert !HasPending(w, |w.log|);
    assert w.log[..|w.log|] == w.log;
  }

  /** A restart loses only mutations whose calls never returned Ok. */
  lemma CrashLosesNoOk<S(!new)>(w: World<S>, left: Temporary<S>)
    requires Inv(w) && Enabled(w, Crash(left))
    ensures var u := Apply(w, Crash(left));
      u.mem == Replay(w.initial, w.log[..w.saved]) && (forall k :: k in w.oks ==> k <= |u.log|)
  {
  }

  // -------- How a call ends --------

  lemma RunsStep<S(!new)>(w: World<S>, a: Action<S>, actions: seq<Action<S>>, last: World<S>)
    requires Enabled(w, a) && Runs(Apply(w, a), actions, last)
    ensures Runs(w, [a] + actions, last)
  {
    assert ([a] + actions)[1..] == actions;
  }

  /** One call, run without interruption to the end of its mutation. */
  lemma CallAndMutate<S(!new)>(w: World<S>, t: nat, f: Closure<S>, actions: seq<Action<S>>, last: World<S>)
    requires t !in w.threads && w.lock.None? && !w.poisoned
    requires Runs(Mutated(w, t, f), actions, last)
    ensures Runs(w, [Call(t, f)] + ([Acquire(t)] + ([Mutate(t)] + actions)), last)
  {
    var u := Apply(w, Call(t, f));
    var v := Apply(u, Acquire(t));
    assert Apply(v, Mutate(t)) == Mutated(w, t, f) by {
      assert v.threads[t := ReturnedErr] == w.threads[t := ReturnedErr];
      assert v.threads[t := Unsaved(|w.log| + 1)] == w.threads[t := Unsaved(|w.log| + 1)];
    }
    RunsStep(v, Mutate(t), actions, last);
    RunsStep(u, Acquire(t), [Mutate(t)] + actions, last);
    RunsStep(w, Call(t, f), [Acquire(t)] + ([Mutate(t)] + actions), last);
  }

  ghost function Mutated<S(!new)>(w: World<S>, t: nat, f: Closure<S>): World<S> {
    var r := f(w.mem);
    if r.ok then w.(mem := r.store, lock := None, log := w.log + [f], threads := w.threads[t := Unsaved(|w.log| + 1)])
    else w.(mem := r.store, lock := None, threads := w.threads[t := ReturnedErr])
  }

  /** From the end of its mutation a call needs three steps to save and return Ok. */
  lemma SaveRuns<S(!new)>(w: World<S>, t: nat) returns (last: World<S>)
    requires t in w.threads && w.threads[t].Unsaved? && w.lock.None? && !w.poisoned
    ensures Runs(w, [Reacquire(t)] + ([WriteTmp(t)] + ([Rename(t)] + [])), last)
    ensures last == w.(file := Some(w.mem), tmp := Missing, saved := |w.log|, oks := w.oks + {w.threads[t].version},
                       threads := w.threads[t := ReturnedOk(w.threads[t].version)])
  {
    var u := Apply(w, Reacquire(t));
    var v := Apply(u, WriteTmp(t));
    last := Apply(v, Rename(t));
    assert Runs(last, [], last);
    RunsStep(v, Rename(t), [], last);
    RunsStep(u, WriteTmp(t), [Rename(t)] + [], last);
    RunsStep(w, Reacquire(t), [WriteTmp(t)] + ([Rename(t)] + []), last);
  }

  /** The steps of one call that nothing disturbs. */
  function OneCall<S>(t: nat, f: Closure<S>): seq<Action<S>> {
    [Call(t, f), Acquire(t), Mutate(t), Reacquire(t), WriteTmp(t), Rename(t)]
  }

  /** A closure that succeeds is saved, and only then its call returns Ok. */
  lemma CallReturnsOk<S(!new)>(w: World<S>, t: nat, f: Closure<S>) returns (last: World<S>)
    requires t !in w.threads && w.lock.None? && !w.poisoned && f(w.mem).ok
    ensures Runs(w, OneCall(t, f), last)
    ensures last.threads == w.threads[t := ReturnedOk(|last.log|)] && last.oks == w.oks + {|last.log|}
    ensures last.log == w.log + [f] && last.saved == |last.log|
    ensures Load(last) == last.mem == f(w.mem).store
    ensures last.lock.None? && !last.poisoned
  {
    hide Runs, Apply, Enabled;
    var u := Mutated(w, t, f);
    last := SaveRuns(u, t);
    var rest := [Reacquire(t)] + ([WriteTmp(t)] + ([Rename(t)] + []));
    CallAndMutate(w, t, f, rest, last);
    assert [Call(t, f)] + ([Acquire(t)] + ([Mutate(t)] + rest)) == OneCall(t, f);
    assert last.threads == w.threads[t := ReturnedOk(|last.log|)];
  }

  /** A closure that fails ends its call with Err; nothing is saved or counted. */
  lemma FailingCallReturnsErr<S(!new)>(w: World<S>, t: nat, f: Closure<S>) returns (last: World<S>)
    requires t !in w.threads && w.lock.None? && !w.poisoned && !f(w.mem).ok
    ensures Runs(w, [Call(t, f), Acquire(t), Mutate(t)], last)
    ensures last == w.(mem := f(w.mem).store, threads := w.threads[t := ReturnedErr])
  {
    last := Mutated(w, t, f);
    assert Runs(last, [], last);
    CallAndMutate(w, t, f, [], last);
    assert [Call(t, f)] + ([Acquire(t)] + ([Mutate(t)] + [])) == [Call(t, f), Acquire(t), Mutate(t)];
  }

  /** A save that fails, before or after the temporary file is written, ends the call with Err: the
      mutation stays in memory, and the file and the calls that returned Ok are as they were. */
  lemma FailedSaveReturnsErr<S(!new)>(w: World<S>, t: nat, f: Closure<S>, left: Temporary<S>, wrote: bool)
    returns (last: World<S>)
    requires t !in w.threads && w.lock.None? && !w.poisoned && f(w.mem).ok && (wrote ==> left == Whole(f(w.mem).store))
    ensures Runs(w, if wrote then [Call(t, f), Acquire(t), Mutate(t), Reacquire(t), WriteTmp(t), FailSave(t, left)]
                    else [Call(t, f), Acquire(t), Mutate(t), Reacquire(t), FailSave(t, left)], last)
    ensures last == w.(mem := f(w.mem).store, tmp := left, log := w.log + [f], failed := w.failed + {|last.log|},
                       threads := w.threads[t := ReturnedErr])
  {
    var u := Mutated(w, t, f);
    var v := Apply(u, Reacquire(t));
    var x := if wrote then Apply(v, WriteTmp(t)) else v;
    last := Apply(x, FailSave(t, left));
    assert last.threads == w.threads[t := ReturnedErr];
    hide Apply, Enabled;
    assert Runs(last, [], last);
    RunsStep(x, FailSave(t, left), [], last);
    var rest := [FailSave(t, left)] + [];
    if wrote {
      RunsStep(v, WriteTmp(t), rest, last);
      rest := [WriteTmp(t)] + rest;
    }
    RunsStep(u, Reacquire(t), rest, last);
    CallAndMutate(w, t, f, [Reacquire(t)] + rest, last);
    if wrote {
      assert [Call(t, f)] + ([Acquire(t)] + ([Mutate(t)] + ([Reacquire(t)] + rest)))
          == [Call(t, f), Acquire(t), Mutate(t), Reacquire(t), WriteTmp(t), FailSave(t, left)];
    } else {
      assert [Call(t, f)] + ([Acquire(t)] + ([Mutate(t)] + ([Reacquire(t)] + rest)))
          == [Call(t, f), Acquire(t), Mutate(t), Reacquire(t), FailSave(t, left)];
    }
  }

  /** After a panic under the lock every further call returns Err and touches nothing. */
  lemma PoisonedCallReturnsErr<S(!new)>(w: World<S>, t: nat, f: Closure<S>) returns (last: World<S>)
    requires t !in w.threads && w.lock.None? && w.poisoned
    ensures Runs(w, [Call(t, f), Acquire(t)], last)
    ensures last == w.(threads := w.threads[t := ReturnedErr])
  {
    var u := Apply(w, Call(t, f));
    last := Apply(u, Acquire(t));
    assert last.threads == w.threads[t := ReturnedErr];
    assert Runs(last, [], last);
    RunsStep(u, Acquire(t), [], last);
    RunsStep(w, Call(t, f), [Acquire(t)] + [], last);
    assert [Call(t, f)] + ([Acquire(t)] + []) == [Call(t, f), Acquire(t)];
  }

  // -------- Without honest closures --------

  /** A closure that changes the store and then fails: the next save of any call writes a store that
      the successful closures did not produce. */
  lemma DishonestClosureIsSaved<S(!new)>(f: Closure<S>, s: S)
    returns (w: World<S>, actions: seq<Action<S>>, last: World<S>)
    requires !f(s).ok && f(s).store != s
    ensures Starts(w) && Runs(w, actions, last) && HonestBut(actions, f)
    ensures last.saved == |last.log| && Load(last) != Replay(w.initial, last.log)
  {
    hide Runs, Apply, Enabled;
    var keep: Closure<S> := (x: S) => Outcome(x, true);
    w := World<S>.World(s, s, None, Missing, None, false, map[], s, [], 0, {}, {});
    var u := Mutated(w, 0, f);
    var v := Mutated(u, 1, keep);
    last := SaveRuns(v, 1);
    var rest := [Reacquire(1)] + ([WriteTmp(1)] + ([Rename(1)] + []));
    CallAndMutate(u, 1, keep, rest, last);
    rest := [Call(1, keep)] + ([Acquire(1)] + ([Mutate(1)] + rest));
    CallAndMutate(w, 0, f, rest, last);
    actions := [Call(0, f)] + ([Acquire(0)] + ([Mutate(0)] + rest));
    ReplayNext(s, [], keep);
  }

  /** Every closure of these calls is this one or honest. */
  ghost predicate HonestBut<S(!new)>(actions: seq<Action<S>>, f: Closure<S>) {
    forall i :: 0 <= i < |actions| && actions[i].Call? ==> actions[i].f == f || Honest(actions[i].f)
  }

  /** Whatever honest closures run beside it, the file always holds the store as it was after some
      of the successful ones. */
  ghost predicate KeepsFileTrue<S(!new)>(f: Closure<S>) {
    forall w: World<S>, actions: seq<Action<S>>, last: World<S> ::
      Starts(w) && HonestBut(actions, f) && Runs(w, actions, last) ==>
        last.saved <= |last.log| && Load(last) == Replay(w.initial, last.log[..last.saved])
  }

  /** Honesty is exactly what durability needs of a closure. */
  lemma DurableIffHonest<S(!new)>(f: Closure<S>)
    ensures KeepsFileTrue(f) <==> Honest(f)
  {
    if Honest(f) {
      forall w: World<S>, actions: seq<Action<S>>, last: World<S> | Starts(w) && HonestBut(actions, f) && Runs(w, actions, last)
        ensures last.saved <= |last.log| && Load(last) == Replay(w.initial, last.log[..last.saved])
      {
        StartsInv(w);
        Durability(w, actions, last);
      }
    } else {
      var s :| !f(s).ok && f(s).store != s;
      var w, actions, last := DishonestClosureIsSaved(f, s);
      assert last.log[..last.saved] == last.log;
    }
  }
}
