/** The login counters as one client at a time sees them, and the runs of the limiter and of the
    login gate that they stand for.
 */
module LoginCounters {
  import opened Wrappers
  import opened KeySpace
  import G = LoginGate
  import L = LoginLimiter

  /** INCR, with EXPIRE when the counter is new. */
  function Attempted(attempts: map<string, Stored<nat>>, key: string, now: Time, window: Time)
    : map<string, Stored<nat>>
  {
    if key in attempts && now < attempts[key].expiry
    then attempts[key := attempts[key].(value := attempts[key].value + 1)]
    else attempts[key := Stored(1, now + window)]
  }

  /** The counter of a key, unless it has expired. */
  function CounterOf(attempts: map<string, Stored<nat>>, key: string, now: Time): Option<L.Counter> {
    if key in attempts && now < attempts[key].expiry
    then Some(L.Counter(attempts[key].value, Some(attempts[key].expiry)))
    else None
  }

  /** The round trips of one call that nobody interrupts. */
  function AllowRun(k: L.Key, c: L.Client): seq<L.Action> {
    if k.counter.None? then [L.Incr(c)] + [L.Expire(c)] else [L.Incr(c)]
  }

  /** Counting an attempt is INCR and, on a new counter, EXPIRE. */
  lemma AllowIsRun(k: L.Key, c: L.Client, attempts: map<string, Stored<nat>>, key: string, limit: nat)
    requires 0 < k.window && c !in k.owing && k.counter == CounterOf(attempts, key, k.now)
    ensures L.Runs(k, AllowRun(k, c))
    ensures L.After(k, AllowRun(k, c))
            == if k.counter.None? then L.Next(L.Next(k, L.Incr(c)), L.Expire(c)) else L.Next(k, L.Incr(c))
    ensures
      var k', counted := L.After(k, AllowRun(k, c)), Attempted(attempts, key, k.now, k.window);
      && k'.counter == CounterOf(counted, key, k.now) && k'.owing == k.owing
      && |k'.log| == |k.log| + 1 && k'.log[|k.log|].at == k.now
      && (L.Allowed(k'.log[|k.log|], limit) <==> counted[key].value <= limit)
  {
    var k1 := L.Next(k, L.Incr(c));
    if k.counter.None? {
      L.FirstStep(k1, L.Expire(c), []);
      assert [L.Expire(c)] + [] == [L.Expire(c)];
      L.FirstStep(k, L.Incr(c), [L.Expire(c)]);
      assert k.owing + {c} - {c} == k.owing;
    } else {
      L.FirstStep(k, L.Incr(c), []);
      assert [L.Incr(c)] + [] == [L.Incr(c)];
    }
  }

  ghost predicate CountersAgree(gate: G.World, attempts: map<string, Stored<nat>>) {
    forall key :: G.KeyOf(gate, key).counter == CounterOf(attempts, key, gate.now)
  }

  /** The counters are those of the gate that the logins have passed, one after the other. */
  ghost predicate Mirrors(gate: G.World, attempts: map<string, Stored<nat>>, now: Time) {
    gate.now == now && G.At(gate, 1).Idle? && CountersAgree(gate, attempts)
  }

  /** The step that counts a login under a key. */
  ghost predicate Counts(gate: G.World, a: G.Action, stage: G.Stage, username: string, key: string) {
    match a
    case IncrAddress(c, name, clientKey) =>
      c == 1 && G.At(gate, 1).Idle? && stage == G.Address && name == username && key == G.AddressKey(clientKey)
    case IncrAccount(c) =>
      c == 1 && G.LetThrough(gate, 1) && G.At(gate, 1).stage == G.Address && stage == G.Account
      && G.At(gate, 1).username == username && key == G.AccountKey(username)
    case _ => false
  }

  lemma IncrStep(gate: G.World, a: G.Action, stage: G.Stage, username: string, key: string)
    requires Counts(gate, a, stage, username, key) && 1 !in G.KeyOf(gate, key).owing
    ensures G.Enabled(gate, a)
    ensures
      var k, after := G.KeyOf(gate, key), G.Next(gate, a);
      && Alongside(gate, after) && after.checks == gate.checks && G.KeyOf(after, key) == L.Next(k, L.Incr(1))
      && (forall other | other != key :: G.KeyOf(after, other) == G.KeyOf(gate, other))
      && G.At(after, 1) == G.Calling(stage, username, key, |k.log|, k.counter.None?)
  {
  }

  lemma ExpireStep(gate: G.World)
    requires G.At(gate, 1).Calling? && G.At(gate, 1).owes && 1 in G.KeyOf(gate, G.At(gate, 1).key).owing
    ensures G.Enabled(gate, G.Expire(1))
    ensures
      var pc, after := G.At(gate, 1), G.Next(gate, G.Expire(1));
      && Alongside(gate, after) && after.checks == gate.checks
      && G.KeyOf(after, pc.key) == L.Next(G.KeyOf(gate, pc.key), L.Expire(1))
      && (forall other | other != pc.key :: G.KeyOf(after, other) == G.KeyOf(gate, other))
      && G.At(after, 1) == pc.(owes := false)
  {
  }

  /** The gate after the round trips of one call, that nobody interrupts. */
  lemma CountedSteps(gate: G.World, a: G.Action, stage: G.Stage, username: string, key: string)
    returns (after: G.World)
    requires G.Reachable(gate) && Counts(gate, a, stage, username, key)
    requires 1 !in G.KeyOf(gate, key).owing
    ensures G.Reachable(after) && Alongside(gate, after) && after.checks == gate.checks
    ensures G.KeyOf(after, key) == (
      var k := G.KeyOf(gate, key);
      if k.counter.None? then L.Next(L.Next(k, L.Incr(1)), L.Expire(1)) else L.Next(k, L.Incr(1)))
    ensures forall other | other != key :: G.KeyOf(after, other) == G.KeyOf(gate, other)
    ensures G.At(after, 1) == G.Calling(stage, username, key, |G.KeyOf(gate, key).log|, false)
  {
    IncrStep(gate, a, stage, username, key);
    G.ReachOn(gate, a);
    after := G.Next(gate, a);
    if G.KeyOf(gate, key).counter.None? {
      ExpireStep(after);
      G.ReachOn(after, G.Expire(1));
      after := G.Next(after, G.Expire(1));
    }
  }

  /** The gate after a login is counted under a key, with the expiry set. */
  lemma CountedGate(gate: G.World, attempts: map<string, Stored<nat>>, a: G.Action, stage: G.Stage, username: string,
                    key: string)
    returns (after: G.World)
    requires G.Reachable(gate) && 0 < gate.window && CountersAgree(gate, attempts)
    requires Counts(gate, a, stage, username, key)
    ensures G.Reachable(after) && CountersAgree(after, Attempted(attempts, key, gate.now, gate.window))
    ensures Alongside(gate, after) && after.checks == gate.checks
    ensures G.At(after, 1).Calling? && G.At(after, 1).stage == stage && G.At(after, 1).username == username
    ensures G.At(after, 1).call < |G.KeyOf(after, G.At(after, 1).key).log|
    ensures G.KeyOf(after, G.At(after, 1).key).log[G.At(after, 1).call].at == gate.now
    ensures G.LetThrough(after, 1) <==> Attempted(attempts, key, gate.now, gate.window)[key].value <= gate.limit
  {
    var k := G.KeyOf(gate, key);
    NotOwing(gate, key);
    AllowIsRun(k, 1, attempts, key, gate.limit);
    after := CountedSteps(gate, a, stage, username, key);
    OthersAgree(gate, after, attempts, key);
  }

  lemma OthersAgree(gate: G.World, after: G.World, attempts: map<string, Stored<nat>>, key: string)
    requires CountersAgree(gate, attempts) && after.now == gate.now
    requires G.KeyOf(after, key).counter == CounterOf(Attempted(attempts, key, gate.now, gate.window), key, gate.now)
    requires forall other | other != key :: G.KeyOf(after, other) == G.KeyOf(gate, other)
    ensures CountersAgree(after, Attempted(attempts, key, gate.now, gate.window))
  {
    forall other
      ensures G.KeyOf(after, other).counter
              == CounterOf(Attempted(attempts, key, gate.now, gate.window), other, gate.now)
    {
      assert other != key ==> G.KeyOf(after, other) == G.KeyOf(gate, other);
    }
  }

  lemma NotOwing(gate: G.World, key: string)
    requires G.Reachable(gate) && 0 < gate.window && (G.At(gate, 1).Idle? || !G.At(gate, 1).owes)
    ensures 1 !in G.KeyOf(gate, key).owing
    ensures G.KeyOf(gate, key).window == gate.window && G.KeyOf(gate, key).now == gate.now
  {
    G.ReachableInv(gate);
    G.FreeToCall(gate, 1, key);
    KeyWindow(gate, key);
  }

  predicate Alongside(gate: G.World, after: G.World) {
    after.limit == gate.limit && after.window == gate.window && after.names == gate.names && after.now == gate.now
  }

  lemma KeyWindow(gate: G.World, key: string)
    requires G.Inv(gate)
    ensures G.KeyOf(gate, key).window == gate.window && G.KeyOf(gate, key).now == gate.now
  {
    if key in gate.keys { assert G.KeyOk(gate, gate.keys[key]); }
  }

  /** The counters after a login has been counted as far as it got. */
  function Admitted(attempts: map<string, Stored<nat>>, username: string, clientKey: string, now: Time, window: Time,
                    limit: nat): map<string, Stored<nat>>
  {
    var counted := Attempted(attempts, G.AddressKey(clientKey), now, window);
    if counted[G.AddressKey(clientKey)].value <= limit then Attempted(counted, G.AccountKey(username), now, window)
    else counted
  }

  /** Both counters let the login through. */
  predicate Passes(attempts: map<string, Stored<nat>>, username: string, clientKey: string, now: Time, window: Time,
                   limit: nat)
  {
    && Attempted(attempts, G.AddressKey(clientKey), now, window)[G.AddressKey(clientKey)].value <= limit
    && Attempted(Attempted(attempts, G.AddressKey(clientKey), now, window),
                 G.AccountKey(username), now, window)[G.AccountKey(username)].value <= limit
  }

  lemma LeftGate(gate: G.World, attempts: map<string, Stored<nat>>)
    returns (after: G.World)
    requires G.Reachable(gate) && CountersAgree(gate, attempts)
    ensures G.Reachable(after) && Mirrors(after, attempts, gate.now) && Alongside(gate, after)
    ensures after.checks == gate.checks
  {
    G.ReachOn(gate, G.Leave(1));
    after := G.Next(gate, G.Leave(1));
    forall key ensures G.KeyOf(after, key).counter == CounterOf(attempts, key, gate.now) {
      assert G.KeyOf(gate, key).counter == CounterOf(attempts, key, gate.now);
    }
  }

  /** The check behind the gate. */
  lemma CheckedGate(gate: G.World, attempts: map<string, Stored<nat>>)
    returns (after: G.World)
    requires G.Reachable(gate) && 0 < gate.window && CountersAgree(gate, attempts)
    requires G.LetThrough(gate, 1) && G.At(gate, 1).stage == G.Account
    ensures G.Reachable(after) && Mirrors(after, attempts, gate.now) && Alongside(gate, after)
    ensures |after.checks| == |gate.checks| + 1 && after.checks[..|gate.checks|] == gate.checks
    ensures var pc := G.At(gate, 1);
            && after.checks[|gate.checks|].row == G.Row(gate.names, pc.username)
            && after.checks[|gate.checks|].at == G.KeyOf(gate, pc.key).log[pc.call].at
  {
    G.ReachOn(gate, G.Verify(1));
    after := G.Next(gate, G.Verify(1));
    forall key ensures G.KeyOf(after, key).counter == CounterOf(attempts, key, gate.now) {
      assert G.KeyOf(gate, key).counter == CounterOf(attempts, key, gate.now);
    }
  }

  /** The gate after a login that runs alone: a check is made exactly if both counters let it
      through. */
  lemma PassedGate(gate: G.World, attempts: map<string, Stored<nat>>, username: string, clientKey: string)
    returns (after: G.World)
    requires G.Reachable(gate) && 0 < gate.window && Mirrors(gate, attempts, gate.now)
    ensures G.Reachable(after) && Alongside(gate, after)
    ensures Mirrors(after, Admitted(attempts, username, clientKey, gate.now, gate.window, gate.limit), gate.now)
    ensures
      if Passes(attempts, username, clientKey, gate.now, gate.window, gate.limit)
      then && |after.checks| == |gate.checks| + 1 && after.checks[..|gate.checks|] == gate.checks
           && after.checks[|gate.checks|].row == G.Row(gate.names, username)
           && after.checks[|gate.checks|].at == gate.now
      else after.checks == gate.checks
  {
    var address, account := G.AddressKey(clientKey), G.AccountKey(username);
    var counted := Attempted(attempts, address, gate.now, gate.window);
    var first := CountedGate(gate, attempts, G.IncrAddress(1, username, clientKey), G.Address, username, address);
    if !G.LetThrough(first, 1) {
      after := LeftGate(first, counted);
    } else {
      var both := Attempted(counted, account, gate.now, gate.window);
      var second := CountedGate(first, counted, G.IncrAccount(1), G.Account, username, account);
      if G.LetThrough(second, 1) {
        after := CheckedGate(second, both);
      } else {
        after := LeftGate(second, both);
      }
    }
  }

  /** The gate after time has passed. */
  lemma PassedTime(gate: G.World, attempts: map<string, Stored<nat>>, elapsed: nat)
    returns (after: G.World)
    requires G.Reachable(gate) && 0 < gate.window && Mirrors(gate, attempts, gate.now)
    ensures G.Reachable(after) && Mirrors(after, attempts, gate.now + elapsed) && after.checks == gate.checks
    ensures after.limit == gate.limit && after.window == gate.window && after.names == gate.names
  {
    G.ReachableInv(gate);
    G.ReachOn(gate, G.Tick(elapsed));
    after := G.Next(gate, G.Tick(elapsed));
    forall key ensures G.KeyOf(after, key).counter == CounterOf(attempts, key, gate.now + elapsed) {
      KeyWindow(gate, key);
      assert G.KeyOf(gate, key).counter == CounterOf(attempts, key, gate.now);
    }
  }
}
