/** The way of a login to its credential check: the counter of the address, then the counter of the
    account, then VerifyCredentials.  Every INCR and EXPIRE is a round trip of its own, any number
    of clients interleave, and a client may leave at any point.
 */
module LoginGate {
  import opened Wrappers
  import opened KeySpace
  import L = LoginLimiter
  import T = Text

  type Client = L.Client

  function AddressKey(clientKey: string): string {
    "ip:" + if T.Trim(clientKey, T.IsSpace) == "" then "unknown" else T.Trim(clientKey, T.IsSpace)
  }

  function AccountKey(username: string): string {
    "account:" + T.Folded(username)
  }

  /** Addresses and accounts are counted under different keys. */
  lemma KeysApart(clientKey: string, username: string)
    ensures AddressKey(clientKey) != AccountKey(username)
  {
    assert AddressKey(clientKey)[0] == 'i' && AccountKey(username)[0] == 'a';
  }

  /** Addresses are counted apart, except that a missing one counts as "unknown". */
  lemma AddressesApart(a: string, b: string)
    ensures AddressKey(a) == AddressKey(b) <==>
            || T.Trim(a, T.IsSpace) == T.Trim(b, T.IsSpace)
            || (T.Trim(a, T.IsSpace) in {"", "unknown"} && T.Trim(b, T.IsSpace) in {"", "unknown"})
  {
    assert AddressKey(a)[3..] == if T.Trim(a, T.IsSpace) == "" then "unknown" else T.Trim(a, T.IsSpace);
    assert AddressKey(b)[3..] == if T.Trim(b, T.IsSpace) == "" then "unknown" else T.Trim(b, T.IsSpace);
  }

  /** Accounts are counted apart, except for the case of their names and the space around them. */
  lemma AccountsApart(a: string, b: string)
    ensures AccountKey(a) == AccountKey(b) <==> T.Folded(a) == T.Folded(b)
  {
    assert AccountKey(a)[8..] == T.Folded(a) && AccountKey(b)[8..] == T.Folded(b);
  }

  /** `call`: the place of the client's INCR in the log of the key; `owes`: the EXPIRE is still to
      come. */
  datatype Pc = Idle | Calling(stage: Stage, username: string, key: string, call: nat, owes: bool)

  /** Which of its two counters a login has reached. */
  datatype Stage = Address | Account

  /** A credential check: the row that was looked up, and the INCR that let the login through. */
  datatype Check = Check(row: Option<UserId>, key: string, call: nat, at: Time)

  datatype World = World(
    limit: nat, window: Time, names: map<string, UserId>, now: Time, keys: map<string, L.Key>,
    clients: map<Client, Pc>, checks: seq<Check>)

  datatype Action =
    | Tick(elapsed: nat)
    | IncrAddress(c: Client, username: string, clientKey: string)
    | IncrAccount(c: Client)
    | Expire(c: Client)
    | Verify(c: Client)
    | Leave(c: Client)

  function At(w: World, c: Client): Pc {
    if c in w.clients then w.clients[c] else Idle
  }

  function KeyOf(w: World, key: string): L.Key {
    if key in w.keys then w.keys[key] else L.Start(w.window, w.now)
  }

  /** The client's last INCR was let through, and nothing is left to do for its key. */
  predicate LetThrough(w: World, c: Client) {
    var pc := At(w, c);
    pc.Calling? && !pc.owes && pc.call < |KeyOf(w, pc.key).log| && L.Allowed(KeyOf(w, pc.key).log[pc.call], w.limit)
  }

  predicate Enabled(w: World, a: Action) {
    match a
    case Tick(_) => true
    case IncrAddress(c, _, clientKey) => At(w, c).Idle? && L.Enabled(KeyOf(w, AddressKey(clientKey)), L.Incr(c))
    case IncrAccount(c) =>
      LetThrough(w, c) && At(w, c).stage == Address && L.Enabled(KeyOf(w, AccountKey(At(w, c).username)), L.Incr(c))
    case Expire(c) => At(w, c).Calling? && At(w, c).owes && L.Enabled(KeyOf(w, At(w, c).key), L.Expire(c))
    case Verify(c) => LetThrough(w, c) && At(w, c).stage == Account
    case Leave(_) => true
  }

  function Counted(w: World, key: string, a: L.Action): World
    requires L.Enabled(KeyOf(w, key), a)
  {
    w.(keys := w.keys[key := L.Next(KeyOf(w, key), a)])
  }

  function Row(names: map<string, UserId>, username: string): Option<UserId> {
    if T.Folded(username) in names then Some(names[T.Folded(username)]) else None
  }

  function Next(w: World, a: Action): World
    requires Enabled(w, a)
  {
    match a
    case Tick(elapsed) =>
      w.(now := w.now + elapsed, keys := map key | key in w.keys :: L.Next(w.keys[key], L.Tick(elapsed)))
    case IncrAddress(c, username, clientKey) =>
      var key := AddressKey(clientKey);
      var k := KeyOf(w, key);
      Counted(w, key, L.Incr(c)).(clients := w.clients[c := Calling(Address, username, key, |k.log|, k.counter.None?)])
    case IncrAccount(c) =>
      var username := At(w, c).username;
      var key := AccountKey(username);
      var k := KeyOf(w, key);
      Counted(w, key, L.Incr(c)).(clients := w.clients[c := Calling(Account, username, key, |k.log|, k.counter.None?)])
    case Expire(c) => Counted(w, At(w, c).key, L.Expire(c)).(clients := w.clients[c := At(w, c).(owes := false)])
    case Verify(c) =>
      var pc := At(w, c);
      w.(clients := w.clients[c := Idle],
         checks := w.checks + [Check(Row(w.names, pc.username), pc.key, pc.call, KeyOf(w, pc.key).log[pc.call].at)])
    case Leave(c) =>
      (if At(w, c).Idle? then w else Counted(w, At(w, c).key, L.Abort(c))).(clients := w.clients[c := Idle])
  }

  function Start(limit: nat, window: Time, names: map<string, UserId>, now: Time): World {
    World(limit, window, names, now, map[], map[], [])
  }

  ghost predicate Runs(w: World, run: seq<Action>)
    decreases |run|
  {
    run == [] || (Enabled(w, run[0]) && Runs(Next(w, run[0]), run[1..]))
  }

  ghost function After(w: World, run: seq<Action>): World
    requires Runs(w, run)
    decreases |run|
  {
    if run == [] then w else After(Next(w, run[0]), run[1..])
  }

  // ---------------------------------------------------------------------------------------
  // The invariant
  // ---------------------------------------------------------------------------------------

  ghost predicate KeyOk(w: World, k: L.Key) {
    L.Inv(k) && k.window == w.window && k.now == w.now
  }

  /** The account's counter has counted this login. */
  predicate Counts(pc: Pc) {
    pc.Calling? && pc.stage == Account
  }

  /** A client stands where its INCR put it, and owes an expiry exactly if it has yet to set it. */
  ghost predicate PcOk(w: World, c: Client, pc: Pc) {
    && (pc.Calling? ==> pc.key in w.keys && pc.call < |w.keys[pc.key].log|)
    && (Counts(pc) ==> pc.key == AccountKey(pc.username))
    && (forall key | key in w.keys && c in w.keys[key].owing :: pc.Calling? && pc.owes && pc.key == key)
  }

  ghost predicate CheckOk(w: World, x: Check) {
    && x.key in w.keys && x.call < |w.keys[x.key].log|
    && w.keys[x.key].log[x.call].at == x.at && L.Allowed(w.keys[x.key].log[x.call], w.limit)
    && (x.row.Some? ==> exists name :: name in w.names && w.names[name] == x.row.value && x.key == "account:" + name)
  }

  /** No INCR lets two logins through. */
  ghost predicate Apart(w: World) {
    && (forall i, j | 0 <= i < j < |w.checks| && w.checks[i].key == w.checks[j].key ::
          w.checks[i].call != w.checks[j].call)
    && (forall i, c | 0 <= i < |w.checks| && c in w.clients && Counts(w.clients[c])
                      && w.clients[c].key == w.checks[i].key ::
          w.clients[c].call != w.checks[i].call)
    && (forall c, d | c in w.clients && d in w.clients && c != d && Counts(w.clients[c]) && Counts(w.clients[d])
                      && w.clients[c].key == w.clients[d].key :: w.clients[c].call != w.clients[d].call)
  }

  ghost predicate Inv(w: World) {
    && 0 < w.window
    && (forall key | key in w.keys :: KeyOk(w, w.keys[key]))
    && (forall key, c | key in w.keys && c in w.keys[key].owing :: c in w.clients)
    && (forall c | c in w.clients :: PcOk(w, c, w.clients[c]))
    && (forall i | 0 <= i < |w.checks| :: CheckOk(w, w.checks[i]))
    && Apart(w)
  }

  /** A client that is idle, or has done what it owes, is free to call. */
  lemma FreeToCall(w: World, c: Client, key: string)
    requires Inv(w) && (At(w, c).Idle? || !At(w, c).owes)
    ensures L.Enabled(KeyOf(w, key), L.Incr(c))
  {
    if c in w.clients { assert PcOk(w, c, w.clients[c]); }
  }

  /** A log only grows. */
  lemma LogGrows(k: L.Key, a: L.Action)
    requires L.Enabled(k, a)
    ensures |k.log| <= |L.Next(k, a).log| && L.Next(k, a).log[..|k.log|] == k.log
  {
  }

  /** The keys after a step: in order, and with logs that only grew. */
  ghost predicate Grown(w: World, w': World) {
    forall key | key in w.keys ::
      key in w'.keys && |w.keys[key].log| <= |w'.keys[key].log|
      && forall i | 0 <= i < |w.keys[key].log| :: w'.keys[key].log[i] == w.keys[key].log[i]
  }

  lemma KeysStep(w: World, a: Action)
    requires Inv(w) && Enabled(w, a)
    ensures forall key | key in Next(w, a).keys :: KeyOk(Next(w, a), Next(w, a).keys[key])
    ensures Grown(w, Next(w, a))
  {
    var w' := Next(w, a);
    forall key | key in w'.keys ensures KeyOk(w', w'.keys[key]) { KeyStep(w, a, key); }
    forall key | key in w.keys
      ensures key in w'.keys && |w.keys[key].log| <= |w'.keys[key].log|
      ensures forall i | 0 <= i < |w.keys[key].log| :: w'.keys[key].log[i] == w.keys[key].log[i]
    {
      KeyStep(w, a, key);
      assert forall i | 0 <= i < |w.keys[key].log| :: w'.keys[key].log[..|w.keys[key].log|][i] == w'.keys[key].log[i];
    }
  }

  /** What a step does to one key: nothing, or one step of the limiter. */
  lemma KeyStep(w: World, a: Action, key: string)
    requires Enabled(w, a) && key in Next(w, a).keys
    requires 0 < w.window && (key in w.keys ==> KeyOk(w, w.keys[key]))
    ensures KeyOk(Next(w, a), Next(w, a).keys[key])
    ensures key in w.keys ==>
      && |w.keys[key].log| <= |Next(w, a).keys[key].log|
      && Next(w, a).keys[key].log[..|w.keys[key].log|] == w.keys[key].log
  {
    var k, k' := KeyOf(w, key), Next(w, a).keys[key];
    assert L.Inv(k);
    if k' != k || key !in w.keys {
      var b := Stepped(w, a, key);
      L.StepKeeps(k, b);
      LogGrows(k, b);
    }
  }

  lemma Stepped(w: World, a: Action, key: string) returns (b: L.Action)
    requires Enabled(w, a) && key in Next(w, a).keys && (Next(w, a).keys[key] != KeyOf(w, key) || key !in w.keys)
    ensures L.Enabled(KeyOf(w, key), b) && Next(w, a).keys[key] == L.Next(KeyOf(w, key), b)
    ensures b.Tick? ==> a == Tick(b.elapsed)
    ensures !b.Tick? ==> !a.Tick?
  {
    b := L.Tick(0);
    match a
    case Tick(elapsed) => b := L.Tick(elapsed);
    case IncrAddress(c, _, _) => b := L.Incr(c);
    case IncrAccount(c) => b := L.Incr(c);
    case Expire(c) => b := L.Expire(c);
    case Leave(c) => b := L.Abort(c);
    case Verify(_) =>
  }

  /** Whoever owes the expiry of a key after a step owed it before, or has just created the counter. */
  lemma OwingStep(w: World, a: Action, key: string, d: Client)
    requires Enabled(w, a) && key in Next(w, a).keys && d in Next(w, a).keys[key].owing
    ensures d in KeyOf(w, key).owing || ((a.IncrAddress? || a.IncrAccount?) && a.c == d)
    ensures !a.Tick? && a.c == d ==>
      var pc := At(Next(w, a), d);
      || (pc.Calling? && pc.key == key && pc.owes)
      || (d in KeyOf(w, key).owing && (At(w, d).Idle? || At(w, d).key != key || !At(w, d).owes))
  {
  }

  lemma OwesStep(w: World, a: Action, c: Client, key: string)
    requires Inv(w) && Enabled(w, a) && c in Next(w, a).clients
    requires key in Next(w, a).keys && c in Next(w, a).keys[key].owing
    ensures Next(w, a).clients[c].Calling? && Next(w, a).clients[c].owes && Next(w, a).clients[c].key == key
  {
    OwingStep(w, a, key, c);
    if c in w.clients { assert PcOk(w, c, w.clients[c]); }
  }

  /** Where a client stands after a step. */
  lemma PlaceStep(w: World, a: Action, c: Client)
    requires Enabled(w, a) && c in Next(w, a).clients && Grown(w, Next(w, a))
    requires c in w.clients ==> PcOk(w, c, w.clients[c])
    ensures var w', pc := Next(w, a), Next(w, a).clients[c];
            && (pc.Calling? ==> pc.key in w'.keys && pc.call < |w'.keys[pc.key].log|)
            && (Counts(pc) ==> pc.key == AccountKey(pc.username))
  {
  }

  lemma PcStep(w: World, a: Action, c: Client)
    requires Inv(w) && Enabled(w, a) && c in Next(w, a).clients && Grown(w, Next(w, a))
    ensures PcOk(Next(w, a), c, Next(w, a).clients[c])
  {
    var w' := Next(w, a);
    PlaceStep(w, a, c);
    forall key | key in w'.keys && c in w'.keys[key].owing
      ensures w'.clients[c].Calling? && w'.clients[c].owes && w'.clients[c].key == key
    {
      OwesStep(w, a, c, key);
    }
  }

  lemma CheckStays(w: World, w': World, x: Check)
    requires CheckOk(w, x) && Grown(w, w') && w'.limit == w.limit && w'.names == w.names
    ensures CheckOk(w', x)
  {
  }

  lemma NewCheck(w: World, c: Client)
    requires Enabled(w, Verify(c)) && c in w.clients && PcOk(w, c, w.clients[c])
    ensures var w' := Next(w, Verify(c));
            |w'.checks| == |w.checks| + 1 && w'.checks[..|w.checks|] == w.checks && CheckOk(w', w'.checks[|w.checks|])
  {
  }

  lemma ChecksStep(w: World, a: Action)
    requires Inv(w) && Enabled(w, a)
    ensures forall i | 0 <= i < |Next(w, a).checks| :: CheckOk(Next(w, a), Next(w, a).checks[i])
  {
    var w' := Next(w, a);
    KeysStep(w, a);
    if a.Verify? {
      assert PcOk(w, a.c, w.clients[a.c]);
      NewCheck(w, a.c);
    }
    forall i | 0 <= i < |w.checks| ensures CheckOk(w', w.checks[i]) { CheckStays(w, w', w.checks[i]); }
    forall i | 0 <= i < |w'.checks| ensures CheckOk(w', w'.checks[i]) {
      if i < |w.checks| { assert w'.checks[i] == w.checks[i]; }
    }
  }

  /** A new INCR of an account gets a place in the log that no check and no other client has. */
  lemma NewPlace(w: World, c: Client)
    requires Inv(w) && Enabled(w, IncrAccount(c))
    ensures var pc := At(Next(w, IncrAccount(c)), c);
            && (forall i | 0 <= i < |w.checks| && w.checks[i].key == pc.key :: w.checks[i].call != pc.call)
            && (forall d | d in w.clients && Counts(w.clients[d]) && w.clients[d].key == pc.key ::
                  w.clients[d].call != pc.call)
  {
    forall i | 0 <= i < |w.checks| ensures CheckOk(w, w.checks[i]) {}
    forall d | d in w.clients ensures PcOk(w, d, w.clients[d]) {}
  }

  lemma ApartCall(w: World, c: Client)
    requires Inv(w) && Enabled(w, IncrAccount(c))
    ensures Apart(Next(w, IncrAccount(c)))
  {
    NewPlace(w, c);
  }

  lemma ApartVerify(w: World, c: Client)
    requires Apart(w) && Enabled(w, Verify(c))
    ensures Apart(Next(w, Verify(c)))
  {
  }

  /** No other step puts a client where it counts, or makes a check. */
  lemma ApartElse(w: World, a: Action)
    requires Apart(w) && Enabled(w, a) && !a.IncrAccount? && !a.Verify?
    ensures Apart(Next(w, a))
  {
  }

  lemma ApartStep(w: World, a: Action)
    requires Inv(w) && Enabled(w, a)
    ensures Apart(Next(w, a))
  {
    if a.IncrAccount? {
      ApartCall(w, a.c);
    } else if a.Verify? {
      ApartVerify(w, a.c);
    } else {
      ApartElse(w, a);
    }
  }

  lemma OwingClients(w: World, a: Action)
    requires Enabled(w, a) && forall key, c | key in w.keys && c in w.keys[key].owing :: c in w.clients
    ensures forall key, c | key in Next(w, a).keys && c in Next(w, a).keys[key].owing :: c in Next(w, a).clients
  {
    forall key, c | key in Next(w, a).keys && c in Next(w, a).keys[key].owing ensures c in Next(w, a).clients {
      OwingStep(w, a, key, c);
    }
  }

  lemma StepKeeps(w: World, a: Action)
    requires Inv(w) && Enabled(w, a)
    ensures Inv(Next(w, a)) && Next(w, a).limit == w.limit
    ensures Next(w, a).window == w.window && Next(w, a).names == w.names
  {
    var w' := Next(w, a);
    KeysStep(w, a);
    ChecksStep(w, a);
    ApartStep(w, a);
    forall c | c in w'.clients ensures PcOk(w', c, w'.clients[c]) { PcStep(w, a, c); }
    OwingClients(w, a);
  }

  lemma {:induction false} RunKeeps(w: World, run: seq<Action>)
    requires Inv(w) && Runs(w, run)
    ensures Inv(After(w, run)) && After(w, run).limit == w.limit && After(w, run).window == w.window
    ensures After(w, run).names == w.names
    decreases |run|
  {
    if run != [] {
      StepKeeps(w, run[0]);
      RunKeeps(Next(w, run[0]), run[1..]);
    }
  }

  // ---------------------------------------------------------------------------------------
  // The bound
  // ---------------------------------------------------------------------------------------

  /** Different names are accounts of different users. */
  predicate OneName(names: map<string, UserId>) {
    forall f, g | f in names && g in names && names[f] == names[g] :: f == g
  }

  /** The checks against a row whose INCR ran in the interval of length `window` from `from`. */
  function ChecksIn(w: World, row: UserId, from: Time): set<nat> {
    set i | 0 <= i < |w.checks| && w.checks[i].row == Some(row) && from <= w.checks[i].at < from + w.window
  }

  lemma {:induction false} Injected(s: set<nat>, f: nat -> nat, t: set<nat>)
    requires forall i | i in s :: f(i) in t
    requires forall i, j | i in s && j in s && i != j :: f(i) != f(j)
    ensures |s| <= |t|
    decreases |s|
  {
    if s != {} {
      var i := L.Element(s);
      Injected(s - {i}, f, t - {f(i)});
    }
  }

  /** All checks against a row come through the same counter. */
  lemma SameCounter(w: World, i: nat, j: nat)
    requires Inv(w) && OneName(w.names) && i < |w.checks| && j < |w.checks|
    requires w.checks[i].row.Some? && w.checks[i].row == w.checks[j].row
    ensures w.checks[i].key == w.checks[j].key
  {
    assert CheckOk(w, w.checks[i]) && CheckOk(w, w.checks[j]);
  }

  /** A check of a row is one of the calls that its counter let through. */
  lemma CheckIsCall(w: World, row: UserId, from: Time, first: nat, i: nat)
    requires Inv(w) && OneName(w.names) && first in ChecksIn(w, row, from) && i in ChecksIn(w, row, from)
    ensures w.checks[i].key == w.checks[first].key && w.checks[i].key in w.keys
    ensures w.checks[i].call in L.AllowedIn(w.keys[w.checks[first].key].log, from, w.window, w.limit)
  {
    SameCounter(w, first, i);
    assert CheckOk(w, w.checks[i]);
  }

  /** At most twice the limit of logins whose INCR falls into one window get as far as the
      credential check of a row. */
  lemma RowBound(w: World, row: UserId, from: Time)
    requires Inv(w) && OneName(w.names)
    ensures |ChecksIn(w, row, from)| <= 2 * w.limit
  {
    var s := ChecksIn(w, row, from);
    if s != {} {
      var first := L.Element(s);
      CheckIsCall(w, row, from, first, first);
      var k := w.keys[w.checks[first].key];
      var t := L.AllowedIn(k.log, from, w.window, w.limit);
      var f := (i: nat) => if i < |w.checks| then w.checks[i].call else 0;
      forall i | i in s ensures f(i) in t && w.checks[i].key == w.checks[first].key {
        CheckIsCall(w, row, from, first, i);
      }
      forall i, j | i in s && j in s && i != j ensures f(i) != f(j) {
        assert i < j || j < i;
      }
      Injected(s, f, t);
      assert KeyOk(w, k);
      L.WindowBound(k, from, w.limit);
    }
  }

  /** The same after every run of any number of clients. */
  lemma ChecksBounded(limit: nat, window: Time, names: map<string, UserId>, now: Time, run: seq<Action>, row: UserId,
                      from: Time)
    requires 0 < window && OneName(names) && Runs(Start(limit, window, names, now), run)
    ensures |ChecksIn(After(Start(limit, window, names, now), run), row, from)| <= 2 * limit
  {
    RunKeeps(Start(limit, window, names, now), run);
    RowBound(After(Start(limit, window, names, now), run), row, from);
  }

  // ---------------------------------------------------------------------------------------
  // Both counters come first
  // ---------------------------------------------------------------------------------------

  lemma {:induction false} PrefixRuns(w: World, run: seq<Action>, i: nat)
    requires Runs(w, run) && i <= |run|
    ensures Runs(w, run[..i]) && (i < |run| ==> Enabled(After(w, run[..i]), run[i]))
    ensures 0 < i ==> Runs(Next(w, run[0]), run[1..i]) && After(w, run[..i]) == After(Next(w, run[0]), run[1..i])
    decreases i
  {
    if i > 0 {
      assert run[..i][1..] == run[1..][..i - 1] && run[1..][..i - 1] == run[1..i];
      PrefixRuns(Next(w, run[0]), run[1..], i - 1);
    }
  }

  /** The INCR that put a client where it counts. */
  lemma {:induction false} CountedBy(w: World, run: seq<Action>, c: Client) returns (i: nat)
    requires Runs(w, run) && At(After(w, run), c).Calling?
    ensures i <= |run| && Runs(w, run[..i])
    ensures i == |run| ==> At(w, c).Calling? && At(After(w, run), c) in {At(w, c), At(w, c).(owes := false)}
    ensures i < |run| ==>
      var pc, before := At(After(w, run), c), After(w, run[..i]);
      && Enabled(before, run[i]) && (run[i].IncrAddress? || run[i].IncrAccount?) && run[i].c == c
      && At(Next(before, run[i]), c) in {pc, pc.(owes := true)}
    decreases |run|
  {
    if run == [] {
      i := 0;
    } else {
      var j := CountedBy(Next(w, run[0]), run[1..], c);
      if j < |run[1..]| {
        i := j + 1;
        PrefixRuns(w, run, i);
        assert run[1..][..j] == run[1..i];
      } else if (run[0].IncrAddress? || run[0].IncrAccount?) && run[0].c == c {
        i := 0;
      } else {
        i := |run|;
        assert run[..i] == run;
      }
    }
  }

  /** Before a login gets to its check, the counter of its address and then that of its account have
      let it through: each INCR got a count within the limit. */
  lemma CheckedAfterBoth(limit: nat, window: Time, names: map<string, UserId>, now: Time, run: seq<Action>, c: Client)
    returns (i: nat, j: nat)
    requires Runs(Start(limit, window, names, now), run)
    requires Enabled(After(Start(limit, window, names, now), run), Verify(c))
    ensures i < j < |run| && run[i].IncrAddress? && run[i].c == c && run[j] == IncrAccount(c)
    ensures
      var checked, name := After(Start(limit, window, names, now), run), T.Folded(run[i].username);
      var checks := Next(checked, Verify(c)).checks;
      && |checks| == |checked.checks| + 1 && checks[..|checked.checks|] == checked.checks
      && checks[|checked.checks|].row == if name in checked.names then Some(checked.names[name]) else None
    ensures Runs(Start(limit, window, names, now), run[..i]) && Runs(Start(limit, window, names, now), run[..j])
    ensures
      var start := Start(limit, window, names, now);
      var arrived, admitted, checked := After(start, run[..i]), After(start, run[..j]), After(start, run);
      var address, account := AddressKey(run[i].clientKey), AccountKey(run[i].username);
      && At(checked, c).username == run[i].username
      && |KeyOf(arrived, address).log| < |KeyOf(admitted, address).log|
      && KeyOf(admitted, address).log[|KeyOf(arrived, address).log|].count <= admitted.limit
      && |KeyOf(admitted, account).log| < |KeyOf(checked, account).log|
      && KeyOf(checked, account).log[|KeyOf(admitted, account).log|].count <= checked.limit
  {
    var start := Start(limit, window, names, now);
    j := CountedBy(start, run, c);
    i := CountedBy(start, run[..j], c);
    assert run[..j][..i] == run[..i] && run[..j][i] == run[i];
  }

  /** The end of some run from a start without counters. */
  ghost predicate Reachable(w: World) {
    exists now, run :: Runs(Start(w.limit, w.window, w.names, now), run)
                       && After(Start(w.limit, w.window, w.names, now), run) == w
  }

  lemma {:induction false} OneMore(w: World, run: seq<Action>, a: Action)
    requires Runs(w, run) && Enabled(After(w, run), a)
    ensures Runs(w, run + [a]) && After(w, run + [a]) == Next(After(w, run), a)
    decreases |run|
  {
    if run == [] {
      assert [] + [a] == [a] && [a][1..] == [];
    } else {
      OneMore(Next(w, run[0]), run[1..], a);
      assert (run + [a])[1..] == run[1..] + [a];
    }
  }

  lemma StartReachable(limit: nat, window: Time, names: map<string, UserId>, now: Time)
    ensures Reachable(Start(limit, window, names, now))
  {
    assert Runs(Start(limit, window, names, now), []);
  }

  lemma ReachOn(w: World, a: Action)
    requires Reachable(w) && Enabled(w, a)
    ensures Reachable(Next(w, a))
  {
    var now, run :| Runs(Start(w.limit, w.window, w.names, now), run)
                    && After(Start(w.limit, w.window, w.names, now), run) == w;
    OneMore(Start(w.limit, w.window, w.names, now), run, a);
  }

  lemma ReachableInv(w: World)
    requires Reachable(w) && 0 < w.window
    ensures Inv(w)
  {
    var now, run :| Runs(Start(w.limit, w.window, w.names, now), run)
                    && After(Start(w.limit, w.window, w.names, now), run) == w;
    RunKeeps(Start(w.limit, w.window, w.names, now), run);
  }
}
