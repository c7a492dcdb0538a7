/** The re-entrant spin lock that guards the state shared by the read and
    write halves of a call (src/async/lock.rs).

    The lock stores the protected value together with an ownership record
    `None | Some(owner, holders)`. The atomic flag that makes each step
    exclusive is not modelled: every `lock` attempt and every guard drop is
    one atomic step of the model, and spinning is a failed attempt that the
    caller repeats. */
module SpinLock {
  import opened Wrappers

  type ThreadId = nat

  datatype Ownership = Ownership(owner: ThreadId, holders: nat)

  datatype Lock<T> = Lock(value: T, ownership: Option<Ownership>)

  /** `SpinLock::new`: the value, and nobody owns the lock. */
  function New<T>(t: T): (l: Lock<T>)
    ensures l.value == t && l.ownership.None?
  {
    Lock(t, None)
  }

  /** One pass of the `lock` loop by thread `me`. Returns the new lock and
      whether a guard was granted; `false` means the loop spins again. */
  function TryLock<T>(l: Lock<T>, me: ThreadId): (r: (Lock<T>, bool))
    ensures r.0.value == l.value
    ensures l.ownership.None? ==> r.1 && r.0.ownership == Some(Ownership(me, 1))
    ensures l.ownership.Some? && l.ownership.value.owner == me ==>
              r.1 && r.0.ownership == Some(Ownership(me, l.ownership.value.holders + 1))
    ensures l.ownership.Some? && l.ownership.value.owner != me ==> !r.1 && r.0 == l
  {
    match l.ownership
    case None => (l.(ownership := Some(Ownership(me, 1))), true)
    case Some(o) =>
      if o.owner == me then (l.(ownership := Some(o.(holders := o.holders + 1))), true)
      else (l, false)
  }

  /** Dropping a `LockGuard`. `None` is the panic of `unwrap` on a missing
      ownership record (or of the `holders -= 1` underflow check). */
  function Unlock<T>(l: Lock<T>): (r: Option<Lock<T>>)
    ensures r.None? <==> l.ownership.None? || l.ownership.value.holders == 0
    ensures r.Some? ==> r.value.value == l.value
    ensures r.Some? && l.ownership.value.holders == 1 ==> r.value.ownership.None?
    ensures r.Some? && l.ownership.value.holders > 1 ==>
              r.value.ownership == Some(l.ownership.value.(holders := l.ownership.value.holders - 1))
  {
    match l.ownership
    case None => None
    case Some(o) =>
      if o.holders == 0 then None
      else
        var holders := o.holders - 1;
        if holders == 0 then Some(l.(ownership := None))
        else Some(l.(ownership := Some(o.(holders := holders))))
  }

  /** The lock together with the guards that are alive, one entry per guard
      naming the thread that obtained it. */
  datatype System<T> = System(lock: Lock<T>, guards: multiset<ThreadId>)

  /** The ownership record is `Some` exactly when guards are alive, all of
      them belong to the recorded owner, and `holders` counts them. */
  ghost predicate Inv<T>(s: System<T>) {
    match s.lock.ownership
    case None => |s.guards| == 0
    case Some(o) => o.holders > 0 && s.guards[o.owner] == o.holders && |s.guards| == o.holders
  }

  datatype Event<T> =
    | Acquire(t: ThreadId)        // one pass of `lock()` by thread t
    | Release(t: ThreadId)        // thread t drops one of its guards
    | Write(t: ThreadId, v: T)    // thread t assigns through `DerefMut` of its guard

  /** One step of the interleaving. A thread can only drop or write through
      a guard it holds; an event naming a guard that does not exist cannot
      occur in the program and leaves the system unchanged. */
  function Step<T>(s: System<T>, e: Event<T>): System<T> {
    match e
    case Acquire(t) =>
      var (l, granted) := TryLock(s.lock, t);
      if granted then System(l, s.guards + multiset{t}) else s
    case Release(t) =>
      if t !in s.guards then s
      else (
        match Unlock(s.lock)
        case None => s
        case Some(l) => System(l, s.guards - multiset{t}))
    case Write(t, v) =>
      if t in s.guards then s.(lock := s.lock.(value := v)) else s
  }

  /** The value a guard exposes (`Deref`). */
  function Deref<T>(s: System<T>, t: ThreadId): (r: Option<T>)
    ensures r.Some? <==> t in s.guards
    ensures r.Some? ==> r.value == s.lock.value
  {
    if t in s.guards then Some(s.lock.value) else None
  }

  function Run<T>(s: System<T>, es: seq<Event<T>>): System<T>
    decreases |es|
  {
    if |es| == 0 then s else Run(Step(s, es[0]), es[1..])
  }

  lemma NewSatisfiesInv<T>(t: T)
    ensures Inv(System(New(t), multiset{}))
  {
  }

  /** Two distinct elements together occur at most as often as the whole
      multiset has elements. */
  lemma {:induction false} TwoCounts<X>(m: multiset<X>, a: X, b: X)
    requires a != b
    ensures m[a] + m[b] <= |m|
    decreases |m|
  {
    if |m| > 0 {
      var x :| x in m;
      var m' := m - multiset{x};
      TwoCounts(m', a, b);
      assert m == m' + multiset{x};
    }
  }

  /** Every step keeps the ownership record and the live guards in agreement. */
  lemma StepPreservesInv<T>(s: System<T>, e: Event<T>)
    requires Inv(s)
    ensures Inv(Step(s, e))
  {
    match e
    case Acquire(t) =>
    case Release(t) =>
      if t in s.guards {
        var o := s.lock.ownership.value;
        assert t == o.owner by {
          if t != o.owner {
            TwoCounts(s.guards, t, o.owner);
          }
        }
      }
    case Write(t, v) =>
  }

  lemma {:induction false} RunPreservesInv<T>(s: System<T>, es: seq<Event<T>>)
    requires Inv(s)
    ensures Inv(Run(s, es))
    decreases |es|
  {
    if |es| > 0 {
      StepPreservesInv(s, es[0]);
      RunPreservesInv(Step(s, es[0]), es[1..]);
    }
  }

  /** A thread that already holds a guard acquires again at once. */
  lemma ReentryNeverBlocks<T>(s: System<T>, t: ThreadId)
    requires Inv(s) && t in s.guards
    ensures TryLock(s.lock, t).1
    ensures Step(s, Acquire(t)).guards == s.guards + multiset{t}
  {
    var o := s.lock.ownership.value;
    if t != o.owner {
      TwoCounts(s.guards, t, o.owner);
    }
  }

  /** While some guard is alive, another thread's attempt changes nothing. */
  lemma OthersSpinWhileHeld<T>(s: System<T>, t: ThreadId, u: ThreadId)
    requires Inv(s) && t in s.guards && u !in s.guards
    ensures !TryLock(s.lock, u).1
    ensures Step(s, Acquire(u)) == s
  {
  }

  /** Dropping a guard frees the lock exactly when it was the last one. */
  lemma FreedOnlyOnOutermostRelease<T>(s: System<T>, t: ThreadId)
    requires Inv(s) && t in s.guards
    ensures var s' := Step(s, Release(t));
            && s'.guards == s.guards - multiset{t}
            && (s'.lock.ownership.None? <==> s.guards[t] == 1)
            && (s'.lock.ownership.Some? ==> s'.lock.ownership.value.owner == t)
  {
    var o := s.lock.ownership.value;
    if t != o.owner {
      TwoCounts(s.guards, t, o.owner);
    }
  }

  function CountReleases<T>(es: seq<Event<T>>, t: ThreadId): nat
  {
    if |es| == 0 then 0 else (if es[0] == Release(t) then 1 else 0) + CountReleases(es[1..], t)
  }

  /** If thread `t` holds `n` guards and drops fewer than `n` of them, it
      keeps the lock throughout: no other thread is ever granted a guard. */
  lemma {:induction false} HolderKeepsLock<T>(s: System<T>, t: ThreadId, es: seq<Event<T>>)
    requires Inv(s) && t in s.guards
    requires CountReleases(es, t) < s.guards[t]
    ensures Inv(Run(s, es))
    ensures forall u :: u in Run(s, es).guards ==> u == t
    ensures Run(s, es).lock.ownership == Some(Ownership(t, Run(s, es).guards[t]))
    decreases |es|
  {
    var o := s.lock.ownership.value;
    if t != o.owner {
      TwoCounts(s.guards, t, o.owner);
    }
    if |es| == 0 {
      forall u | u in s.guards ensures u == t {
        if u != t {
          TwoCounts(s.guards, u, t);
        }
      }
    } else {
      var s1 := Step(s, es[0]);
      StepPreservesInv(s, es[0]);
      match es[0] {
      case Acquire(u) =>
        if u == t { ReentryNeverBlocks(s, t); } else {
          assert u !in s.guards by {
            if u in s.guards { TwoCounts(s.guards, u, t); }
          }
          OthersSpinWhileHeld(s, t, u);
        }
      case Release(u) =>
        if u == t { FreedOnlyOnOutermostRelease(s, t); }
      case Write(u, v) =>
      }
      assert CountReleases(es[1..], t) < s1.guards[t];
      HolderKeepsLock(s1, t, es[1..]);
    }
  }

  /** Acquiring and releasing never change the protected value; only a
      write through a held guard does. */
  lemma {:induction false} LockingKeepsValue<T>(s: System<T>, es: seq<Event<T>>)
    requires forall i :: 0 <= i < |es| ==> !es[i].Write?
    ensures Run(s, es).lock.value == s.lock.value
    decreases |es|
  {
    if |es| > 0 {
      assert forall i :: 0 <= i < |es[1..]| ==> !es[1..][i].Write? by {
        forall i | 0 <= i < |es[1..]| ensures !es[1..][i].Write? {
          assert es[1..][i] == es[i + 1];
        }
      }
      LockingKeepsValue(Step(s, es[0]), es[1..]);
    }
  }

  /** The scenario of the module's own unit test: one thread takes two
      nested guards; a second thread cannot acquire after the first drop and
      succeeds only after the second. */
  lemma NestedGuardsScenario()
    ensures var s0 := System(New(2), multiset{});
            var s2 := Run(s0, [Acquire(1), Acquire(1)]);
            var s3 := Step(s2, Acquire(2));
            var s4 := Step(s3, Release(1));
            var s5 := Step(s4, Acquire(2));
            var s6 := Step(s5, Release(1));
            var s7 := Step(s6, Acquire(2));
            && 2 !in s3.guards && 2 !in s5.guards && 2 in s7.guards
            && s7.lock.value == 2
  {
    var s0 := System(New(2), multiset{});
    assert Run(s0, [Acquire(1), Acquire(1)]) == Run(Step(s0, Acquire(1)), [Acquire(1)]);
    var s1 := Step(s0, Acquire(1));
    assert Run(s1, [Acquire(1)]) == Run(Step(s1, Acquire(1)), []);
  }
}
