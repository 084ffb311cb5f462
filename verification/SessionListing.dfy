/** The order in which ListSessions returns sessions: newest first, then by the text of the id. */
module SessionListing {
  import opened Wrappers
  import opened KeySpace

  datatype Summary = Summary(id: SessionId, createdAt: Time, expiresAt: Time, current: bool)

  /** The text of an id. */
  type Text = SessionId -> string

  function SummaryOf(s: Session, current: SessionId): Summary {
    Summary(s.id, s.createdAt, s.expiresAt, s.id == current)
  }

  // ---------------------------------------------------------------------------------------
  // The order
  // ---------------------------------------------------------------------------------------

  /** Go's < on strings. */
  predicate TextLess(a: string, b: string)
    decreases |a|
  {
    b != [] && (a == [] || a[0] < b[0] || (a[0] == b[0] && TextLess(a[1..], b[1..])))
  }

  lemma {:induction false} TextOrder(a: string, b: string)
    ensures TextLess(a, b) || TextLess(b, a) || a == b
    ensures !(TextLess(a, b) && TextLess(b, a)) && !TextLess(a, a)
    decreases |a|
  {
    if a != [] && b != [] && a[0] == b[0] {
      TextOrder(a[1..], b[1..]);
      assert [a[0]] + a[1..] == a && [b[0]] + b[1..] == b;
    }
    if a != [] {
      TextIrreflexive(a[1..]);
    }
  }

  lemma {:induction false} TextIrreflexive(a: string)
    ensures !TextLess(a, a)
    decreases |a|
  {
    if a != [] {
      TextIrreflexive(a[1..]);
    }
  }

  lemma {:induction false} TextTransitive(a: string, b: string, c: string)
    requires TextLess(a, b) && TextLess(b, c)
    ensures TextLess(a, c)
    decreases |a|
  {
    if a != [] && a[0] == b[0] && b[0] == c[0] {
      TextTransitive(a[1..], b[1..], c[1..]);
    }
  }

  /** The texts agree up to a place where the first one ends or has the smaller character, by its
      code. */
  predicate LessAt(a: string, b: string, n: nat) {
    n <= |a| && n < |b| && a[..n] == b[..n] && (n == |a| || (a[n] as int) < b[n] as int)
  }

  lemma {:induction false} WhereLess(a: string, b: string) returns (n: nat)
    requires TextLess(a, b)
    ensures LessAt(a, b, n)
    decreases |a|
  {
    n := 0;
    if a != [] && a[0] == b[0] {
      var m := WhereLess(a[1..], b[1..]);
      n := m + 1;
      assert a[..n] == [a[0]] + a[1..][..m] && b[..n] == [b[0]] + b[1..][..m];
    }
  }

  lemma {:induction false} LessWhere(a: string, b: string, n: nat)
    requires LessAt(a, b, n)
    ensures TextLess(a, b)
    decreases |a|
  {
    if n > 0 {
      assert a[0] == a[..n][0] == b[..n][0] == b[0];
      assert a[1..][..n - 1] == a[..n][1..] && b[1..][..n - 1] == b[..n][1..];
      LessWhere(a[1..], b[1..], n - 1);
    }
  }

  /** It is the lexicographic order. */
  lemma TextLessExactly(a: string, b: string)
    ensures TextLess(a, b) <==> exists n: nat :: LessAt(a, b, n)
  {
    if TextLess(a, b) {
      var n := WhereLess(a, b);
    }
    if n: nat :| LessAt(a, b, n) {
      LessWhere(a, b, n);
    }
  }

  /** The comparison handed to sort.Slice. */
  predicate Less(text: Text, x: Summary, y: Summary) {
    if x.createdAt == y.createdAt then TextLess(text(x.id), text(y.id)) else x.createdAt > y.createdAt
  }

  ghost predicate Injective(text: Text) {
    forall x, y | text(x) == text(y) :: x == y
  }

  lemma LessOrder(text: Text, x: Summary, y: Summary)
    requires Injective(text)
    ensures !(Less(text, x, y) && Less(text, y, x)) && !Less(text, x, x)
    ensures x.id != y.id ==> Less(text, x, y) || Less(text, y, x)
  {
    TextOrder(text(x.id), text(y.id));
    TextIrreflexive(text(x.id));
  }

  lemma LessTransitive(text: Text, x: Summary, y: Summary, z: Summary)
    requires Less(text, x, y) && Less(text, y, z)
    ensures Less(text, x, z)
  {
    if x.createdAt == y.createdAt == z.createdAt {
      TextTransitive(text(x.id), text(y.id), text(z.id));
    }
  }

  ghost predicate Sorted(text: Text, r: seq<Summary>) {
    forall i, j | 0 <= i < j < |r| :: !Less(text, r[j], r[i])
  }

  /** Newer entries come first; entries of the same instant in the order of the texts of their ids. */
  lemma NewestFirst(text: Text, r: seq<Summary>, i: nat, j: nat)
    requires Injective(text) && Sorted(text, r) && i < j < |r|
    ensures r[i].createdAt >= r[j].createdAt
    ensures r[i].createdAt == r[j].createdAt && r[i].id != r[j].id ==>
            var a, b := text(r[i].id), text(r[j].id);
            exists n: nat :: n <= |a| && n < |b| && a[..n] == b[..n] && (n == |a| || (a[n] as int) < b[n] as int)
  {
    TextOrder(text(r[i].id), text(r[j].id));
    TextLessExactly(text(r[i].id), text(r[j].id));
    if r[i].createdAt == r[j].createdAt && r[i].id != r[j].id {
      var n: nat :| LessAt(text(r[i].id), text(r[j].id), n);
    }
  }

  // ---------------------------------------------------------------------------------------
  // Listings
  // ---------------------------------------------------------------------------------------

  /** `r` holds each summary of `m` once. */
  ghost predicate Holds(m: map<SessionId, Summary>, r: seq<Summary>) {
    && (forall i | 0 <= i < |r| :: r[i].id in m && m[r[i].id] == r[i])
    && (forall i, j | 0 <= i < j < |r| :: r[i].id != r[j].id)
    && (forall id | id in m :: exists i :: 0 <= i < |r| && r[i].id == id)
  }

  lemma RestHolds(m: map<SessionId, Summary>, r: seq<Summary>)
    requires Holds(m, r) && r != []
    ensures Holds(m - {r[0].id}, r[1..])
  {
    var m', r' := m - {r[0].id}, r[1..];
    forall id | id in m' ensures exists i :: 0 <= i < |r'| && r'[i].id == id {
      var i :| 0 <= i < |r| && r[i].id == id;
      assert r'[i - 1].id == id;
    }
  }

  lemma SameFirst(text: Text, m: map<SessionId, Summary>, a: seq<Summary>, b: seq<Summary>)
    requires Injective(text) && Holds(m, a) && Holds(m, b) && Sorted(text, a) && Sorted(text, b)
    requires a != [] && b != []
    ensures a[0] == b[0]
  {
    var i :| 0 <= i < |a| && a[i].id == b[0].id;
    var j :| 0 <= j < |b| && b[j].id == a[0].id;
    assert a[i] == b[0] && b[j] == a[0];
    LessOrder(text, a[0], b[0]);
    FirstIsLeast(text, a, i);
    FirstIsLeast(text, b, j);
  }

  lemma FirstIsLeast(text: Text, r: seq<Summary>, i: nat)
    requires Injective(text) && Sorted(text, r) && i < |r|
    ensures !Less(text, r[i], r[0])
  {
    LessOrder(text, r[0], r[0]);
  }

  lemma EmptyHolds(m: map<SessionId, Summary>, r: seq<Summary>)
    requires Holds(m, r)
    ensures r == [] <==> m == map[]
  {
    if r != [] {
      assert r[0].id in m;
    }
  }

  /** There is only one sorted list of the same summaries. */
  lemma {:induction false} SortedIsUnique(text: Text, m: map<SessionId, Summary>, a: seq<Summary>, b: seq<Summary>)
    requires Injective(text) && Holds(m, a) && Holds(m, b) && Sorted(text, a) && Sorted(text, b)
    ensures a == b
    decreases |a|
  {
    EmptyHolds(m, a);
    EmptyHolds(m, b);
    if a != [] {
      SameFirst(text, m, a, b);
      RestHolds(m, a);
      RestHolds(m, b);
      SortedIsUnique(text, m - {a[0].id}, a[1..], b[1..]);
      assert [a[0]] + a[1..] == a && [b[0]] + b[1..] == b;
    }
  }

  function Insert(text: Text, r: seq<Summary>, x: Summary): seq<Summary> {
    if r == [] || Less(text, x, r[0]) then [x] + r else [r[0]] + Insert(text, r[1..], x)
  }

  /** One way to do what sort.Slice does; any other gives the same list (SortedIsUnique). */
  function Arrange(text: Text, r: seq<Summary>): seq<Summary> {
    if r == [] then [] else Insert(text, Arrange(text, r[1..]), r[0])
  }

  lemma LeastFirst(text: Text, r: seq<Summary>, x: Summary)
    requires Sorted(text, r) && forall j | 0 <= j < |r| :: !Less(text, r[j], x)
    ensures Sorted(text, [x] + r)
  {
  }

  /** What is less than the first is less than all. */
  lemma BeforeAll(text: Text, r: seq<Summary>, x: Summary, j: nat)
    requires Injective(text) && Sorted(text, r) && j < |r| && Less(text, x, r[0])
    ensures !Less(text, r[j], x)
  {
    LessOrder(text, x, r[0]);
    if Less(text, r[j], x) {
      LessTransitive(text, r[j], x, r[0]);
      FirstIsLeast(text, r, j);
    }
  }

  lemma AfterFirst(text: Text, m: map<SessionId, Summary>, r: seq<Summary>, x: Summary, rest: seq<Summary>, j: nat)
    requires Injective(text) && Holds(m, r) && Sorted(text, r) && r != [] && x.id !in m && !Less(text, x, r[0])
    requires Holds((m - {r[0].id})[x.id := x], rest) && j < |rest|
    ensures !Less(text, rest[j], r[0])
  {
    if rest[j].id != x.id {
      var i :| 0 <= i < |r| && r[i].id == rest[j].id;
      FirstIsLeast(text, r, i);
    }
  }

  lemma ReplacedFirst(m: map<SessionId, Summary>, first: Summary, x: Summary)
    requires first.id in m && m[first.id] == first && x.id !in m
    ensures (m - {first.id})[x.id := x][first.id := first] == m[x.id := x]
  {
  }

  lemma {:induction false} InsertSorts(text: Text, m: map<SessionId, Summary>, r: seq<Summary>, x: Summary)
    requires Injective(text) && Holds(m, r) && Sorted(text, r) && x.id !in m
    ensures Holds(m[x.id := x], Insert(text, r, x)) && Sorted(text, Insert(text, r, x))
    decreases |r|
  {
    if r == [] || Less(text, x, r[0]) {
      forall j | 0 <= j < |r| ensures !Less(text, r[j], x) { BeforeAll(text, r, x, j); }
      LeastFirst(text, r, x);
      FirstHolds(m, r, x);
    } else {
      var first := r[0];
      var rest := Insert(text, r[1..], x);
      var m' := (m - {first.id})[x.id := x];
      RestHolds(m, r);
      InsertSorts(text, m - {first.id}, r[1..], x);
      forall j | 0 <= j < |rest| ensures !Less(text, rest[j], first) { AfterFirst(text, m, r, x, rest, j); }
      LeastFirst(text, rest, first);
      FirstHolds(m', rest, first);
      ReplacedFirst(m, first, x);
    }
  }

  lemma FirstHolds(m: map<SessionId, Summary>, r: seq<Summary>, x: Summary)
    requires Holds(m, r) && x.id !in m
    ensures Holds(m[x.id := x], [x] + r)
  {
    var more := [x] + r;
    var m' := m[x.id := x];
    forall id | id in m' ensures exists i :: 0 <= i < |more| && more[i].id == id {
      if id == x.id { assert more[0].id == id; }
      else {
        var i :| 0 <= i < |r| && r[i].id == id;
        assert more[i + 1].id == id;
      }
    }
  }

  lemma InsertBack(text: Text, m: map<SessionId, Summary>, rest: seq<Summary>, x: Summary)
    requires Injective(text) && x.id in m && m[x.id] == x && Holds(m - {x.id}, rest) && Sorted(text, rest)
    ensures Holds(m, Insert(text, rest, x)) && Sorted(text, Insert(text, rest, x))
  {
    InsertSorts(text, m - {x.id}, rest, x);
    assert (m - {x.id})[x.id := x] == m;
  }

  lemma {:induction false} ArrangeSorts(text: Text, m: map<SessionId, Summary>, r: seq<Summary>)
    requires Injective(text) && Holds(m, r)
    ensures Holds(m, Arrange(text, r)) && Sorted(text, Arrange(text, r))
    decreases |r|
  {
    if r != [] {
      RestHolds(m, r);
      var first := r[0];
      ArrangeSorts(text, m - {first.id}, r[1..]);
      InsertBack(text, m, Arrange(text, r[1..]), first);
    }
  }

  /** The summaries of the sessions in `ids`. */
  function Summaries(k: Keys, ids: set<SessionId>, current: SessionId): map<SessionId, Summary> {
    map id | id in ids && id in k.sessions :: SummaryOf(k.sessions[id].value, current)
  }

  /** The answer of ListSessions for the live sessions `ids`. */
  ghost predicate Listing(k: Keys, ids: set<SessionId>, current: SessionId, text: Text, r: seq<Summary>) {
    Holds(Summaries(k, ids, current), r) && Sorted(text, r)
  }

  /** Each entry carries the dates of its session, and each session has its entry. */
  lemma ListingShows(k: Keys, ids: set<SessionId>, current: SessionId, text: Text, r: seq<Summary>)
    requires forall id | id in k.sessions :: k.sessions[id].value.id == id
    requires Listing(k, ids, current, text, r)
    ensures forall i | 0 <= i < |r| ::
              && r[i].id in ids && r[i].id in k.sessions
              && r[i].createdAt == k.sessions[r[i].id].value.createdAt
              && r[i].expiresAt == k.sessions[r[i].id].value.expiresAt
              && (r[i].current <==> r[i].id == current)
    ensures forall id | id in ids && id in k.sessions :: exists i :: 0 <= i < |r| && r[i].id == id
  {
    var m := Summaries(k, ids, current);
    forall i | 0 <= i < |r| ensures r[i].id in m && m[r[i].id] == r[i] {}
    forall id | id in ids && id in k.sessions ensures exists i :: 0 <= i < |r| && r[i].id == id {
      assert id in m;
    }
  }

  /** The answer depends only on the set of sessions, not on the order Redis gave them in. */
  lemma ListingIsUnique(k: Keys, ids: set<SessionId>, current: SessionId, text: Text, r: seq<Summary>, r': seq<Summary>)
    requires Injective(text) && Listing(k, ids, current, text, r) && Listing(k, ids, current, text, r')
    ensures r == r'
  {
    SortedIsUnique(text, Summaries(k, ids, current), r, r');
  }

  /** At most one entry is marked current: the one of the caller's own session. */
  lemma OneCurrent(k: Keys, ids: set<SessionId>, current: SessionId, text: Text, r: seq<Summary>, i: nat, j: nat)
    requires forall id | id in k.sessions :: k.sessions[id].value.id == id
    requires Listing(k, ids, current, text, r) && i < |r| && j < |r|
    ensures r[i].current <==> r[i].id == current
    ensures r[i].current && r[j].current ==> i == j
  {
    var m := Summaries(k, ids, current);
    assert m[r[i].id] == r[i] && m[r[j].id] == r[j];
  }
}
