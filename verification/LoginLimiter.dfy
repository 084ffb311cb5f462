/** The login limiter: a counter per key that INCR creates and that expires one window after the
    EXPIRE which follows the first INCR.  INCR and EXPIRE are separate round trips, so clients
    interleave between them, and one that stops there leaves a counter without expiry.
 */
module LoginLimiter {
  import opened Wrappers

  type Client = int

  datatype Counter = Counter(count: nat, expiry: Option<Time>)

  /** One call of Allow: when its INCR ran, which counter it hit and the count it got. */
  datatype Call = Call(at: Time, generation: nat, count: nat)

  /** The key of one client address or account.  `starts`: when each counter of the key was
      created.  `owing`: the clients that have created a counter and not yet set its expiry. */
  datatype Key = Key(
    window: Time, now: Time, counter: Option<Counter>, starts: seq<Time>, log: seq<Call>, owing: set<Client>)

  datatype Action =
    | Tick(elapsed: nat)
    | Incr(c: Client)
    | Expire(c: Client)
    | Abort(c: Client)

  predicate Enabled(k: Key, a: Action) {
    match a
    case Tick(_) => true
    case Incr(c) => c !in k.owing
    case Expire(c) => c in k.owing
    case Abort(_) => true
  }

  function Purged(counter: Option<Counter>, now: Time): Option<Counter> {
    if counter.Some? && counter.value.expiry.Some? && counter.value.expiry.value <= now then None else counter
  }

  function Next(k: Key, a: Action): Key
    requires Enabled(k, a)
  {
    match a
    case Tick(elapsed) => k.(now := k.now + elapsed, counter := Purged(k.counter, k.now + elapsed))
    case Incr(c) =>
      (match k.counter
       case None =>
         k.(counter := Some(Counter(1, None)), starts := k.starts + [k.now],
            log := k.log + [Call(k.now, |k.starts|, 1)], owing := k.owing + {c})
       case Some(n) =>
         k.(counter := Some(n.(count := n.count + 1)),
            log := k.log + [Call(k.now, if |k.starts| == 0 then 0 else |k.starts| - 1, n.count + 1)]))
    case Expire(c) =>
      (match k.counter
       case None => k.(owing := k.owing - {c})
       case Some(n) => k.(counter := Some(n.(expiry := Some(k.now + k.window))), owing := k.owing - {c}))
    case Abort(c) => k.(owing := k.owing - {c})
  }

  function Start(window: Time, now: Time): Key {
    Key(window, now, None, [], [], {})
  }

  ghost predicate Runs(k: Key, run: seq<Action>)
    decreases |run|
  {
    run == [] || (Enabled(k, run[0]) && Runs(Next(k, run[0]), run[1..]))
  }

  ghost function After(k: Key, run: seq<Action>): Key
    requires Runs(k, run)
    decreases |run|
  {
    if run == [] then k else After(Next(k, run[0]), run[1..])
  }

  // ---------------------------------------------------------------------------------------
  // The invariant
  // ---------------------------------------------------------------------------------------

  /** Counters of a key live at least one window each, one after the other. */
  ghost predicate StartsOk(k: Key) {
    && (forall g | 0 <= g < |k.starts| :: k.starts[g] <= k.now)
    && (forall g | 0 <= g < |k.starts| - 1 :: k.starts[g] + k.window <= k.starts[g + 1])
    && (k.counter.Some? ==>
          && 0 < |k.starts|
          && (k.counter.value.expiry.Some? ==> k.starts[|k.starts| - 1] + k.window <= k.counter.value.expiry.value))
    && (k.counter.None? && 0 < |k.starts| ==> k.starts[|k.starts| - 1] + k.window <= k.now)
  }

  /** A call falls into the life of the counter it hit. */
  ghost predicate CallOk(k: Key, x: Call) {
    && x.generation < |k.starts| && k.starts[x.generation] <= x.at <= k.now && 1 <= x.count
    && (x.generation + 1 < |k.starts| ==> x.at <= k.starts[x.generation + 1])
    && (x.generation + 1 == |k.starts| && k.counter.Some? ==> x.count <= k.counter.value.count)
  }

  ghost predicate Inv(k: Key) {
    && 0 < k.window && StartsOk(k)
    && (forall i | 0 <= i < |k.log| :: CallOk(k, k.log[i]))
    && (forall i, j | 0 <= i < j < |k.log| && k.log[i].generation == k.log[j].generation ::
          k.log[i].count != k.log[j].count)
  }

  lemma StartsStep(k: Key, a: Action)
    requires 0 < k.window && StartsOk(k) && Enabled(k, a)
    ensures StartsOk(Next(k, a))
  {
  }

  lemma CallsStep(k: Key, a: Action)
    requires Inv(k) && Enabled(k, a)
    ensures forall i | 0 <= i < |Next(k, a).log| :: CallOk(Next(k, a), Next(k, a).log[i])
  {
    var k' := Next(k, a);
    forall i | 0 <= i < |k'.log| ensures CallOk(k', k'.log[i]) {
      if i < |k.log| { assert CallOk(k, k.log[i]); }
    }
  }

  /** An INCR gets a count that no earlier call on the same counter got. */
  lemma NewCount(k: Key, c: Client)
    requires Inv(k) && Enabled(k, Incr(c))
    ensures var x := Next(k, Incr(c)).log[|k.log|];
            && Next(k, Incr(c)).log == k.log + [x]
            && forall i | 0 <= i < |k.log| && k.log[i].generation == x.generation :: k.log[i].count != x.count
  {
    forall i | 0 <= i < |k.log| ensures CallOk(k, k.log[i]) {}
  }

  lemma StepKeeps(k: Key, a: Action)
    requires Inv(k) && Enabled(k, a)
    ensures Inv(Next(k, a)) && Next(k, a).window == k.window
  {
    StartsStep(k, a);
    CallsStep(k, a);
    if a.Incr? { NewCount(k, a.c); } else { assert Next(k, a).log == k.log; }
  }

  lemma {:induction false} RunKeeps(k: Key, run: seq<Action>)
    requires Inv(k) && Runs(k, run)
    ensures Inv(After(k, run)) && After(k, run).window == k.window
    decreases |run|
  {
    if run != [] {
      StepKeeps(k, run[0]);
      RunKeeps(Next(k, run[0]), run[1..]);
    }
  }

  // ---------------------------------------------------------------------------------------
  // The bounds
  // ---------------------------------------------------------------------------------------

  /** Allow lets a call through if the count it got is within the limit. */
  predicate Allowed(x: Call, limit: nat) {
    x.count <= limit
  }

  /** The calls let through in the interval of length `window` that begins at `from`. */
  function AllowedIn(log: seq<Call>, from: Time, window: Time, limit: nat): set<nat> {
    set i | 0 <= i < |log| && from <= log[i].at < from + window && Allowed(log[i], limit)
  }

  function AllowedOf(log: seq<Call>, generation: nat, limit: nat): set<nat> {
    set i | 0 <= i < |log| && log[i].generation == generation && Allowed(log[i], limit)
  }

  /** As many things as can be told apart by a number below `n` are at most `n`. */
  lemma {:induction false} Pigeonhole<T(!new)>(s: set<T>, f: T -> int, n: nat)
    requires forall x | x in s :: 0 <= f(x) < n
    requires forall x, y | x in s && y in s && x != y :: f(x) != f(y)
    ensures |s| <= n
    decreases n
  {
    if n == 0 {
      assert forall x :: x !in s;
    } else if exists x :: x in s && f(x) == n - 1 {
      var x :| x in s && f(x) == n - 1;
      Pigeonhole(s - {x}, f, n - 1);
    } else {
      Pigeonhole(s, f, n - 1);
    }
  }

  /** One counter lets at most `limit` calls through. */
  lemma CounterBound(k: Key, generation: nat, limit: nat)
    requires Inv(k)
    ensures |AllowedOf(k.log, generation, limit)| <= limit
  {
    var f := (i: nat) => if i < |k.log| then k.log[i].count - 1 else 0;
    forall i | i in AllowedOf(k.log, generation, limit) ensures 0 <= f(i) < limit { assert CallOk(k, k.log[i]); }
    Pigeonhole(AllowedOf(k.log, generation, limit), f, limit);
  }

  /** Calls within one window hit the same counter or two that follow each other. */
  lemma WithinOneWindow(k: Key, i: nat, j: nat)
    requires Inv(k) && i < |k.log| && j < |k.log| && k.log[j].at < k.log[i].at + k.window
    ensures k.log[j].generation <= k.log[i].generation + 1
  {
    assert CallOk(k, k.log[i]) && CallOk(k, k.log[j]);
    var g := k.log[i].generation;
    if g + 2 < |k.starts| {
      assert k.starts[g + 1] + k.window <= k.starts[g + 2];
      if g + 2 <= k.log[j].generation { StartsGrow(k, g + 2, k.log[j].generation); }
    }
  }

  lemma {:induction false} StartsGrow(k: Key, g: nat, h: nat)
    requires 0 < k.window && StartsOk(k) && g <= h < |k.starts|
    ensures k.starts[g] <= k.starts[h]
    decreases h - g
  {
    if g < h {
      assert k.starts[g] + k.window <= k.starts[g + 1];
      StartsGrow(k, g + 1, h);
    }
  }

  /** Any interval as long as the window holds at most twice the limit of calls let through. */
  lemma WindowBound(k: Key, from: Time, limit: nat)
    requires Inv(k)
    ensures |AllowedIn(k.log, from, k.window, limit)| <= 2 * limit
  {
    var s := AllowedIn(k.log, from, k.window, limit);
    if s != {} {
      var first := EarliestCounter(k, s);
      forall i | i in s ensures k.log[first].generation <= k.log[i].generation <= k.log[first].generation + 1 {
        WithinOneWindow(k, first, i);
      }
      var g := k.log[first].generation;
      var f := (i: nat) => if i < |k.log| then
                             (if k.log[i].generation == g then 0 else limit) + k.log[i].count - 1 else 0;
      forall i | i in s ensures 0 <= f(i) < 2 * limit { assert CallOk(k, k.log[i]); }
      forall i, j | i in s && j in s && i != j ensures f(i) != f(j) {
        assert CallOk(k, k.log[i]) && CallOk(k, k.log[j]);
        assert i < j || j < i;
      }
      Pigeonhole(s, f, 2 * limit);
    }
  }

  /** A call of `s` on the earliest counter. */
  lemma {:induction false} EarliestCounter(k: Key, s: set<nat>) returns (first: nat)
    requires s != {} && forall i | i in s :: i < |k.log|
    ensures first in s && forall i | i in s :: k.log[first].generation <= k.log[i].generation
  {
    first :| first in s;
    var rest := s - {first};
    if rest != {} {
      var other := EarliestCounter(k, rest);
      if k.log[other].generation < k.log[first].generation { first := other; }
    }
    assert forall i | i in s :: i in rest || i in s - rest;
  }

  /** Both bounds hold after every run of any number of clients. */
  lemma LimiterBounds(window: Time, now: Time, run: seq<Action>, from: Time, generation: nat, limit: nat)
    requires 0 < window && Runs(Start(window, now), run)
    ensures |AllowedIn(After(Start(window, now), run).log, from, window, limit)| <= 2 * limit
    ensures |AllowedOf(After(Start(window, now), run).log, generation, limit)| <= limit
  {
    RunKeeps(Start(window, now), run);
    WindowBound(After(Start(window, now), run), from, limit);
    CounterBound(After(Start(window, now), run), generation, limit);
  }

  // ---------------------------------------------------------------------------------------
  // A counter ends when it was set to
  // ---------------------------------------------------------------------------------------

  /** The counter number `n` of the key expires at `e`, and nobody is about to set another expiry. */
  ghost predicate Living(k: Key, e: Time, n: nat) {
    k.now < e && k.owing == {} && |k.starts| == n && k.counter.Some? && k.counter.value.expiry == Some(e)
  }

  ghost predicate Over(k: Key, e: Time, n: nat) {
    e <= k.now && n <= |k.starts| && (k.counter.Some? ==> n < |k.starts|)
  }

  lemma EndsStep(k: Key, a: Action, e: Time, n: nat)
    requires 0 < n && Enabled(k, a) && (Living(k, e, n) || Over(k, e, n))
    ensures Living(Next(k, a), e, n) || Over(Next(k, a), e, n)
    ensures Next(k, a).log == k.log || (
      var x := Next(k, a).log[|k.log|];
      Next(k, a).log == k.log + [x] && (x.at < e <==> x.generation < n))
  {
  }

  /** Calls do not put the end of a counter off: in every continuation, exactly the calls before its
      expiry are counted by it, and all later ones by newer counters. */
  lemma {:induction false} EndsAtExpiry(k: Key, run: seq<Action>, e: Time, n: nat)
    requires 0 < n && Runs(k, run) && (Living(k, e, n) || Over(k, e, n))
    ensures Living(After(k, run), e, n) || Over(After(k, run), e, n)
    ensures |k.log| <= |After(k, run).log| && After(k, run).log[..|k.log|] == k.log
    ensures forall i | |k.log| <= i < |After(k, run).log| ::
              After(k, run).log[i].at < e <==> After(k, run).log[i].generation < n
    decreases |run|
  {
    if run != [] {
      var next := Next(k, run[0]);
      EndsStep(k, run[0], e, n);
      EndsAtExpiry(next, run[1..], e, n);
      var log := After(next, run[1..]).log;
      assert log[..|k.log|] == log[..|next.log|][..|k.log|] == k.log;
      forall i | |k.log| <= i < |next.log| ensures log[i].at < e <==> log[i].generation < n {
        assert log[i] == log[..|next.log|][i] == next.log[i];
      }
    }
  }

  // ---------------------------------------------------------------------------------------
  // A counter whose EXPIRE never came
  // ---------------------------------------------------------------------------------------

  /** The counter has no expiry, nobody is going to set one, and the limit is used up. */
  ghost predicate Stuck(k: Key, limit: nat) {
    k.counter.Some? && k.counter.value.expiry == None && k.owing == {} && limit <= k.counter.value.count
  }

  /** Such a counter never goes away: no call is let through again, however long one waits. */
  lemma {:induction false} StuckForever(k: Key, run: seq<Action>, limit: nat)
    requires Stuck(k, limit) && Runs(k, run)
    ensures Stuck(After(k, run), limit) && |k.log| <= |After(k, run).log|
    ensures forall i | |k.log| <= i < |After(k, run).log| :: !Allowed(After(k, run).log[i], limit)
    ensures After(k, run).log[..|k.log|] == k.log
    decreases |run|
  {
    if run != [] {
      var next := Next(k, run[0]);
      StuckForever(next, run[1..], limit);
      var log := After(next, run[1..]).log;
      assert log[..|k.log|] == log[..|next.log|][..|k.log|] == k.log;
      forall i | |k.log| <= i < |next.log| ensures !Allowed(log[i], limit) {
        assert log[i] == log[..|next.log|][i] == next.log[i];
      }
    }
  }

  lemma FirstStep(k: Key, a: Action, rest: seq<Action>)
    requires Enabled(k, a) && Runs(Next(k, a), rest)
    ensures Runs(k, [a] + rest) && After(k, [a] + rest) == After(Next(k, a), rest)
  {
    assert ([a] + rest)[1..] == rest;
  }

  /** Some call of the run is let through. */
  ghost predicate LetsThrough(k: Key, run: seq<Action>, limit: nat)
    requires Runs(k, run)
  {
    exists i :: |k.log| <= i < |After(k, run).log| && Allowed(After(k, run).log[i], limit)
  }

  /** A client that is not about to set an expiry makes a call that the counter lets through. */
  lemma CallNow(k: Key, c: Client, limit: nat)
    requires c !in k.owing && 1 <= limit && (k.counter.Some? ==> k.counter.value.count < limit)
    ensures Runs(k, [Incr(c)]) && LetsThrough(k, [Incr(c)], limit)
  {
    FirstStep(k, Incr(c), []);
    assert [Incr(c)] + [] == [Incr(c)];
    assert Allowed(After(k, [Incr(c)]).log[|k.log|], limit);
  }

  /** A step that makes no call may come first. */
  lemma CallLater(k: Key, a: Action, rest: seq<Action>, limit: nat)
    requires Enabled(k, a) && Next(k, a).log == k.log && Runs(Next(k, a), rest) && LetsThrough(Next(k, a), rest, limit)
    ensures Runs(k, [a] + rest) && LetsThrough(k, [a] + rest, limit)
  {
    FirstStep(k, a, rest);
  }

  lemma Element<T>(s: set<T>) returns (x: T)
    requires s != {}
    ensures x in s
  {
    x :| x in s;
  }

  /** Some client is not about to set an expiry. */
  lemma {:induction false} FreeClient(owing: set<Client>) returns (c: Client)
    ensures c !in owing && forall d | d in owing :: d < c
  {
    if owing == {} {
      c := 0;
    } else {
      var d := Element(owing);
      var e := FreeClient(owing - {d});
      c := if d < e then e else d + 1;
      forall x | x in owing ensures x < c {
        if x != d { assert x in owing - {d}; }
      }
    }
  }

  /** A counter that is below the limit, or about to expire, lets a call through. */
  lemma CallAfterExpiry(k: Key, limit: nat) returns (run: seq<Action>)
    requires 1 <= limit
    requires k.counter.Some? ==> k.counter.value.count < limit || k.counter.value.expiry.Some?
    ensures Runs(k, run) && LetsThrough(k, run, limit)
  {
    var c := FreeClient(k.owing);
    if k.counter.Some? && limit <= k.counter.value.count {
      var left := k.counter.value.expiry.value - k.now;
      var wait := Tick(if left < 0 then 0 else left);
      CallNow(Next(k, wait), c, limit);
      CallLater(k, wait, [Incr(c)], limit);
      run := [wait] + [Incr(c)];
    } else {
      CallNow(k, c, limit);
      run := [Incr(c)];
    }
  }

  /** Unless it is stuck, a key can let a call through again: below the limit at once, with an
      expiry by waiting, and without one when a client that owes it goes on. */
  lemma CallAgain(k: Key, limit: nat) returns (run: seq<Action>)
    requires 1 <= limit && !Stuck(k, limit)
    ensures Runs(k, run) && LetsThrough(k, run, limit)
  {
    if k.counter.Some? && limit <= k.counter.value.count && k.counter.value.expiry == None {
      var c := Element(k.owing);
      var rest := CallAfterExpiry(Next(k, Expire(c)), limit);
      CallLater(k, Expire(c), rest, limit);
      run := [Expire(c)] + rest;
    } else {
      run := CallAfterExpiry(k, limit);
    }
  }

  /** A key is locked for good exactly if it is stuck. */
  lemma LockedExactly(k: Key, limit: nat)
    requires 1 <= limit
    ensures Stuck(k, limit) <==> forall run | Runs(k, run) :: !LetsThrough(k, run, limit)
  {
    if Stuck(k, limit) {
      forall run | Runs(k, run) ensures !LetsThrough(k, run, limit) { StuckForever(k, run, limit); }
    } else {
      var run := CallAgain(k, limit);
    }
  }

  function Calls(n: nat): seq<Action> {
    if n == 0 then [] else [Incr(1)] + Calls(n - 1)
  }

  lemma {:induction false} CallsCount(k: Key, n: nat)
    requires Stuck(k, 0)
    ensures Runs(k, Calls(n)) && Stuck(After(k, Calls(n)), k.counter.value.count + n)
    decreases n
  {
    if n > 0 {
      CallsCount(Next(k, Incr(1)), n - 1);
      FirstStep(k, Incr(1), Calls(n - 1));
    }
  }

  /** It comes about for every limit: the client that created the counter stops before its EXPIRE,
      and further calls use the limit up. */
  lemma StuckByAbort(window: Time, now: Time, limit: nat)
    requires 0 < window && 1 <= limit
    ensures
      var run := [Incr(1)] + ([Abort(1)] + Calls(limit - 1));
      Runs(Start(window, now), run) && Stuck(After(Start(window, now), run), limit)
  {
    var k0 := Start(window, now);
    var k1 := Next(k0, Incr(1));
    var k2 := Next(k1, Abort(1));
    CallsCount(k2, limit - 1);
    FirstStep(k1, Abort(1), Calls(limit - 1));
    FirstStep(k0, Incr(1), [Abort(1)] + Calls(limit - 1));
  }
}
