/** The log redactor: a traversal of a value graph that may be cyclic, bounded by a depth and a
    node budget, against plain recursive redaction.
 */
module Redaction {
  import opened KeyNames

  const MAX_DEPTH := 32
  const MAX_NODES := 1024

  type Addr(==, !new)
  type Text(==, !new)

  /** A reflected value.  `Pointer` is a non-nil pointer or interface, `List` a slice or array,
      `Table` a non-nil map with string keys; `Leaf` is every other kind, a nil pointer and a
      nil map among them: all that is passed on as it is. */
  datatype Value =
    | Invalid
    | Leaf(text: Text)
    | Pointer(to: Addr)
    | Struct(fields: seq<Field>)
    | List(at: Addr)
    | Table(at: Addr)

  datatype Field = Field(name: Name, exported: bool, value: Value)

  /** The name of a field, an entry or an attribute. */
  datatype Name = Name(text: string)

  datatype Cell = Boxed(value: Value) | Items(values: seq<Value>) | Entries(entries: map<Name, Value>)

  /** The graph, and which names are sensitive. */
  datatype Heap = Heap(cells: map<Addr, Cell>, hidden: Name -> bool)

  datatype Out =
    | Nil
    | Raw(text: Text)
    | Marker
    | Cycle
    | Record(fields: map<Name, Out>)
    | Sequence(items: seq<Out>)

  /** Every reference leads to a cell of its kind. */
  predicate Wellformed(h: Heap, v: Value) {
    match v
    case Pointer(a) => a in h.cells && h.cells[a].Boxed?
    case List(a) => a in h.cells && h.cells[a].Items?
    case Table(a) => a in h.cells && h.cells[a].Entries?
    case Struct(fields) => forall i | 0 <= i < |fields| :: Wellformed(h, fields[i].value)
    case _ => true
  }

  predicate CellWellformed(h: Heap, c: Cell) {
    match c
    case Boxed(v) => Wellformed(h, v)
    case Items(vs) => forall i | 0 <= i < |vs| :: Wellformed(h, vs[i])
    case Entries(m) => forall k | k in m :: Wellformed(h, m[k])
  }

  predicate Closed(h: Heap) {
    forall a | a in h.cells :: CellWellformed(h, h.cells[a])
  }

  /** No sensitive name keeps its value anywhere inside. */
  ghost predicate Clean(h: Heap, out: Out) {
    match out
    case Record(fields) => forall k | k in fields :: (h.hidden(k) ==> fields[k] == Marker) && Clean(h, fields[k])
    case Sequence(items) => forall i | 0 <= i < |items| :: Clean(h, items[i])
    case _ => true
  }

  // ---------------------------------------------------------------------------------------
  // Plain recursive redaction, on graphs without cycles
  // ---------------------------------------------------------------------------------------

  type Rank = map<Addr, nat>

  /** Above the rank of everything a value refers to. */
  ghost function Top(v: Value, rank: Rank): nat {
    match v
    case Pointer(a) => if a in rank then rank[a] + 1 else 0
    case List(a) => if a in rank then rank[a] + 1 else 0
    case Table(a) => if a in rank then rank[a] + 1 else 0
    case Struct(fields) => TopFields(fields, rank)
    case _ => 0
  }

  ghost function TopFields(fields: seq<Field>, rank: Rank): nat {
    if fields == [] then 0 else
    var f := fields[|fields| - 1];
    assert f.value < f;
    var a, b := Top(f.value, rank), TopFields(fields[..|fields| - 1], rank);
    if a < b then b else a
  }

  lemma {:induction false} TopField(fields: seq<Field>, rank: Rank, i: nat)
    requires i < |fields|
    ensures Top(fields[i].value, rank) <= TopFields(fields, rank)
  {
    if i < |fields| - 1 { TopField(fields[..|fields| - 1], rank, i); }
  }

  /** Everything a value refers to is ranked. */
  ghost predicate Known(v: Value, rank: Rank) {
    match v
    case Pointer(a) => a in rank
    case List(a) => a in rank
    case Table(a) => a in rank
    case Struct(fields) => forall i | 0 <= i < |fields| :: Known(fields[i].value, rank)
    case _ => true
  }

  ghost predicate Under(v: Value, rank: Rank, bound: nat) {
    Known(v, rank) && Top(v, rank) <= bound
  }

  /** A part of a graph has no cycle exactly if its cells can be ranked so that what a cell holds
      refers only to cells of lower rank.  Cells without a rank are outside the part. */
  ghost predicate Ranked(h: Heap, rank: Rank) {
    forall a | a in rank && a in h.cells ::
      match h.cells[a]
      case Boxed(v) => Under(v, rank, rank[a])
      case Items(vs) => forall i | 0 <= i < |vs| :: Under(vs[i], rank, rank[a])
      case Entries(m) => forall k | k in m :: Under(m[k], rank, rank[a])
  }

  ghost predicate Acyclic(h: Heap, rank: Rank) {
    Closed(h) && Ranked(h, rank)
  }

  ghost predicate FieldsKnown(fields: seq<Field>, rank: Rank) {
    forall i | 0 <= i < |fields| :: Known(fields[i].value, rank)
  }

  ghost function Sum(m: map<Name, nat>): nat
    decreases |m|
  {
    if m == map[] then 0 else
    var k :| k in m; m[k] + Sum(m - {k})
  }

  /** The sum does not depend on the order in which keys are taken. */
  lemma {:induction false} SumSplit(m: map<Name, nat>, k: Name)
    requires k in m
    ensures Sum(m) == m[k] + Sum(m - {k})
    decreases |m|
  {
    var j :| j in m && Sum(m) == m[j] + Sum(m - {j});
    if j != k {
      SumSplit(m - {j}, k);
      SumSplit(m - {k}, j);
      assert m - {j} - {k} == m - {k} - {j};
    }
  }

  /** The redacted value, and the number of nodes a traversal visits. */
  datatype Shape = Shape(out: Out, nodes: nat)

  datatype Shapes = Shapes(fields: map<Name, Out>, nodes: nat)

  ghost function Plain(h: Heap, v: Value, rank: Rank): Shape
    requires Acyclic(h, rank) && Wellformed(h, v) && Known(v, rank)
    decreases 2 * Top(v, rank), v, 1
  {
    match v
    case Invalid => Shape(Nil, 0)
    case Leaf(text) => Shape(Raw(text), 1)
    case Pointer(a) =>
      assert CellWellformed(h, h.cells[a]);
      var s := Plain(h, h.cells[a].value, rank); Shape(s.out, s.nodes + 1)
    case Struct(fields) =>
      var s := PlainFields(h, fields, rank); Shape(Record(s.fields), s.nodes + 1)
    case List(a) =>
      assert CellWellformed(h, h.cells[a]);
      var s := PlainItems(h, h.cells[a].values, rank, rank[a]); Shape(Sequence(s.0), s.1 + 1)
    case Table(a) =>
      assert CellWellformed(h, h.cells[a]);
      var shapes := PlainEntries(h, h.cells[a].entries, rank, rank[a]);
      Shape(Record(Outs(h.cells[a].entries.Keys, shapes)), Sum(Nodes(shapes)) + 1)
  }

  ghost function PlainEntries(h: Heap, m: map<Name, Value>, rank: Rank, bound: nat): map<Name, Shape>
    requires Acyclic(h, rank) && forall k | k in m :: Wellformed(h, m[k]) && Under(m[k], rank, bound)
    decreases 2 * bound + 1
  {
    map k | k in m && !h.hidden(k) :: assert Under(m[k], rank, bound); Plain(h, m[k], rank)
  }

  /** The entries of the redacted map: those that were not traversed are marked. */
  function Outs(keys: set<Name>, shapes: map<Name, Shape>): map<Name, Out> {
    map k | k in keys :: if k in shapes then shapes[k].out else Marker
  }

  function Nodes(shapes: map<Name, Shape>): map<Name, nat> {
    map k | k in shapes :: shapes[k].nodes
  }

  ghost function PlainFields(h: Heap, fields: seq<Field>, rank: Rank): Shapes
    requires Acyclic(h, rank) && FieldsKnown(fields, rank)
    requires forall i | 0 <= i < |fields| :: Wellformed(h, fields[i].value)
    decreases 2 * TopFields(fields, rank), fields, 0
  {
    if fields == [] then Shapes(map[], 0) else
    var f := fields[|fields| - 1];
    var s := PlainFields(h, fields[..|fields| - 1], rank);
    if !f.exported then s
    else if h.hidden(f.name) then s.(fields := s.fields[f.name := Marker])
    else
      assert f.value < f && f in fields;
      var x := Plain(h, f.value, rank);
      Shapes(s.fields[f.name := x.out], s.nodes + x.nodes)
  }

  ghost function PlainItems(h: Heap, vs: seq<Value>, rank: Rank, bound: nat): (seq<Out>, nat)
    requires Acyclic(h, rank) && forall i | 0 <= i < |vs| :: Wellformed(h, vs[i]) && Under(vs[i], rank, bound)
    decreases 2 * bound + 1, vs
  {
    if vs == [] then ([], 0) else
    var s := PlainItems(h, vs[..|vs| - 1], rank, bound);
    assert Under(vs[|vs| - 1], rank, bound);
    var x := Plain(h, vs[|vs| - 1], rank);
    (s.0 + [x.out], s.1 + x.nodes)
  }

  /** The depth budget does not cut the value short. */
  ghost predicate Fits(h: Heap, v: Value, rank: Rank, depth: nat)
    requires Acyclic(h, rank) && Wellformed(h, v) && Known(v, rank)
    decreases Top(v, rank), v, 1
  {
    match v
    case Invalid => true
    case Leaf(_) => depth < MAX_DEPTH
    case Pointer(a) =>
      assert CellWellformed(h, h.cells[a]);
      depth < MAX_DEPTH && Fits(h, h.cells[a].value, rank, depth + 1)
    case Struct(fields) => depth < MAX_DEPTH && FieldsFit(h, fields, rank, depth + 2)
    case List(a) =>
      assert CellWellformed(h, h.cells[a]);
      depth < MAX_DEPTH && forall i | 0 <= i < |h.cells[a].values| :: Fits(h, h.cells[a].values[i], rank, depth + 2)
    case Table(a) =>
      assert CellWellformed(h, h.cells[a]);
      depth < MAX_DEPTH
      && forall k | k in h.cells[a].entries && !h.hidden(k) :: Fits(h, h.cells[a].entries[k], rank, depth + 1)
  }

  ghost predicate FieldsFit(h: Heap, fields: seq<Field>, rank: Rank, depth: nat)
    requires Acyclic(h, rank) && FieldsKnown(fields, rank)
    requires forall i | 0 <= i < |fields| :: Wellformed(h, fields[i].value)
    decreases TopFields(fields, rank), fields, 0
  {
    fields != [] ==>
      var f := fields[|fields| - 1];
      assert f.value < f && f in fields;
      FieldsFit(h, fields[..|fields| - 1], rank, depth)
      && (f.exported && !h.hidden(f.name) ==> Fits(h, f.value, rank, depth))
  }

  /** What a value refers to lies below everything that is being visited. */
  ghost predicate Below(top: nat, rank: Rank, visited: set<Addr>) {
    forall a | a in visited :: a in rank && top <= rank[a]
  }

  /** Both budgets suffice for the value, and no cycle leads back to what is being visited. */
  ghost predicate Within(h: Heap, v: Value, rank: Rank, depth: nat, nodes: nat, visited: set<Addr>) {
    && Acyclic(h, rank) && Wellformed(h, v) && Known(v, rank) && Fits(h, v, rank, depth)
    && nodes + Plain(h, v, rank).nodes <= MAX_NODES && Below(Top(v, rank), rank, visited)
  }

  ghost predicate FieldsWithin(h: Heap, fields: seq<Field>, rank: Rank, depth: nat, nodes: nat, visited: set<Addr>)
    requires forall i | 0 <= i < |fields| :: Wellformed(h, fields[i].value)
  {
    && Acyclic(h, rank) && FieldsKnown(fields, rank) && FieldsFit(h, fields, rank, depth)
    && nodes + PlainFields(h, fields, rank).nodes <= MAX_NODES && Below(TopFields(fields, rank), rank, visited)
  }

  ghost predicate ItemsWithin(h: Heap, vs: seq<Value>, rank: Rank, bound: nat, depth: nat, nodes: nat,
                              visited: set<Addr>)
    requires forall i | 0 <= i < |vs| :: Wellformed(h, vs[i])
  {
    && Acyclic(h, rank) && (forall i | 0 <= i < |vs| :: Under(vs[i], rank, bound) && Fits(h, vs[i], rank, depth))
    && nodes + PlainItems(h, vs, rank, bound).1 <= MAX_NODES && Below(bound, rank, visited)
  }

  /** The first fields of a struct that is within the budgets are within the budgets, and so is
      the next field after them. */
  lemma {:induction false} FieldsPrefix(h: Heap, fields: seq<Field>, rank: Rank, depth: nat, nodes: nat,
                                        visited: set<Addr>, i: nat)
    requires i < |fields| && forall j | 0 <= j < |fields| :: Wellformed(h, fields[j].value)
    requires FieldsWithin(h, fields, rank, depth, nodes, visited)
    ensures FieldsWithin(h, fields[..i + 1], rank, depth, nodes, visited)
    ensures fields[..i + 1][..i] == fields[..i]
    ensures fields[i].exported && !h.hidden(fields[i].name) ==>
              Within(h, fields[i].value, rank, depth, nodes + PlainFields(h, fields[..i], rank).nodes, visited)
    decreases |fields|
  {
    TopField(fields, rank, i);
    if i == |fields| - 1 {
      assert fields[..i + 1] == fields;
    } else {
      var init := fields[..|fields| - 1];
      FieldsPrefix(h, init, rank, depth, nodes, visited, i);
      assert init[..i + 1] == fields[..i + 1] && init[..i] == fields[..i];
    }
  }

  lemma {:induction false} ItemsPrefix(h: Heap, vs: seq<Value>, rank: Rank, bound: nat, depth: nat, nodes: nat,
                                       visited: set<Addr>, i: nat)
    requires i < |vs| && forall j | 0 <= j < |vs| :: Wellformed(h, vs[j])
    requires ItemsWithin(h, vs, rank, bound, depth, nodes, visited)
    ensures ItemsWithin(h, vs[..i + 1], rank, bound, depth, nodes, visited)
    ensures vs[..i + 1][..i] == vs[..i]
    ensures Within(h, vs[i], rank, depth, nodes + PlainItems(h, vs[..i], rank, bound).1, visited)
    decreases |vs|
  {
    if i == |vs| - 1 {
      assert vs[..i + 1] == vs;
    } else {
      var init := vs[..|vs| - 1];
      ItemsPrefix(h, init, rank, bound, depth, nodes, visited, i);
      assert init[..i + 1] == vs[..i + 1] && init[..i] == vs[..i];
    }
  }

  ghost predicate EntriesWithin(h: Heap, m: map<Name, Value>, rank: Rank, bound: nat, depth: nat, nodes: nat,
                                visited: set<Addr>)
    requires forall k | k in m :: Wellformed(h, m[k])
  {
    && Acyclic(h, rank)
    && (forall k | k in m :: Under(m[k], rank, bound))
    && (forall k | k in m && !h.hidden(k) :: Fits(h, m[k], rank, depth))
    && nodes + Sum(Nodes(PlainEntries(h, m, rank, bound))) <= MAX_NODES && Below(bound, rank, visited)
  }

  /** What each kind of value hands on to the values inside it. */
  lemma PointerWithin(h: Heap, a: Addr, rank: Rank, depth: nat, nodes: nat, visited: set<Addr>)
    requires Within(h, Pointer(a), rank, depth, nodes, visited)
    ensures depth < MAX_DEPTH && nodes < MAX_NODES
    ensures Within(h, h.cells[a].value, rank, depth + 1, nodes + 1, visited)
    ensures var s := Plain(h, h.cells[a].value, rank); Plain(h, Pointer(a), rank) == Shape(s.out, s.nodes + 1)
  {
    assert CellWellformed(h, h.cells[a]);
  }

  lemma StructWithin(h: Heap, fields: seq<Field>, rank: Rank, depth: nat, nodes: nat, visited: set<Addr>)
    requires Within(h, Struct(fields), rank, depth, nodes, visited)
    ensures depth < MAX_DEPTH && nodes < MAX_NODES
    ensures FieldsWithin(h, fields, rank, depth + 2, nodes + 1, visited)
    ensures Plain(h, Struct(fields), rank)
            == Shape(Record(PlainFields(h, fields, rank).fields), PlainFields(h, fields, rank).nodes + 1)
  {
  }

  lemma ListWithin(h: Heap, a: Addr, rank: Rank, depth: nat, nodes: nat, visited: set<Addr>)
    requires Within(h, List(a), rank, depth, nodes, visited)
    ensures depth < MAX_DEPTH && nodes < MAX_NODES && a in rank
    ensures CellWellformed(h, h.cells[a])
    ensures ItemsWithin(h, h.cells[a].values, rank, rank[a], depth + 2, nodes + 1, visited)
    ensures Plain(h, List(a), rank)
            == var s := PlainItems(h, h.cells[a].values, rank, rank[a]); Shape(Sequence(s.0), s.1 + 1)
  {
    assert CellWellformed(h, h.cells[a]);
  }

  /** A map within the budgets is not being visited already. */
  lemma TableWithin(h: Heap, a: Addr, rank: Rank, depth: nat, nodes: nat, visited: set<Addr>)
    requires Within(h, Table(a), rank, depth, nodes, visited)
    ensures depth < MAX_DEPTH && nodes < MAX_NODES && a in rank && a !in visited
    ensures CellWellformed(h, h.cells[a])
    ensures EntriesWithin(h, h.cells[a].entries, rank, rank[a], depth + 1, nodes + 1, visited + {a})
    ensures Plain(h, Table(a), rank)
            == var shapes := PlainEntries(h, h.cells[a].entries, rank, rank[a]);
               Shape(Record(Outs(h.cells[a].entries.Keys, shapes)), Sum(Nodes(shapes)) + 1)
  {
    assert CellWellformed(h, h.cells[a]);
  }

  lemma CutShort(h: Heap, v: Value, rank: Rank, depth: nat, nodes: nat, visited: set<Addr>)
    requires !v.Invalid? && (depth >= MAX_DEPTH || nodes >= MAX_NODES)
    ensures !Within(h, v, rank, depth, nodes, visited)
  {
  }

  lemma CostStep(costs: map<Name, nat>, done: set<Name>, k: Name)
    requires k in costs && k !in done
    ensures Sum(Only(costs, done + {k})) == Sum(Only(costs, done)) + costs[k] <= Sum(costs)
  {
    SumOnly(costs, done + {k});
    SumSplit(Only(costs, done + {k}), k);
    assert Only(costs, done + {k}) - {k} == Only(costs, done);
  }

  lemma NoEntries(shapes: map<Name, Shape>)
    ensures Outs({}, shapes) == map[] && Sum(Only(Nodes(shapes), {})) == 0
  {
    assert Only(Nodes(shapes), {}) == map[];
  }

  lemma AllEntries(h: Heap, m: map<Name, Value>, rank: Rank, bound: nat)
    requires Acyclic(h, rank) && forall k | k in m :: Wellformed(h, m[k]) && Under(m[k], rank, bound)
    ensures var costs := Nodes(PlainEntries(h, m, rank, bound)); Only(costs, m.Keys) == costs
  {
  }

  /** A part sums to no more than the whole. */
  lemma {:induction false} SumOnly(m: map<Name, nat>, keys: set<Name>)
    ensures Sum(Only(m, keys)) <= Sum(m)
    decreases |m|
  {
    if k :| k in m && k !in keys {
      SumSplit(m, k);
      SumOnly(m - {k}, keys);
      assert Only(m - {k}, keys) == Only(m, keys);
    } else {
      assert Only(m, keys) == m;
    }
  }

  function Only<V>(m: map<Name, V>, keys: set<Name>): map<Name, V> {
    map k | k in m && k in keys :: m[k]
  }

  /** The next entry of a map within the budgets is within them, and what it adds. */
  lemma EntryStep(h: Heap, m: map<Name, Value>, rank: Rank, bound: nat, depth: nat, start: nat,
                  visited: set<Addr>, shapes: map<Name, Shape>, done: set<Name>, k: Name)
    requires (forall j | j in m :: Wellformed(h, m[j])) && k in m && k !in done && !h.hidden(k)
    requires EntriesWithin(h, m, rank, bound, depth, start, visited) && shapes == PlainEntries(h, m, rank, bound)
    ensures Within(h, m[k], rank, depth, start + Sum(Only(Nodes(shapes), done)), visited)
    ensures Outs(done + {k}, shapes) == Outs(done, shapes)[k := Plain(h, m[k], rank).out]
    ensures Sum(Only(Nodes(shapes), done + {k})) == Sum(Only(Nodes(shapes), done)) + Plain(h, m[k], rank).nodes
  {
    CostStep(Nodes(shapes), done, k);
  }

  lemma EntrySkip(h: Heap, m: map<Name, Value>, rank: Rank, bound: nat, shapes: map<Name, Shape>, done: set<Name>,
                  k: Name)
    requires Acyclic(h, rank) && (forall j | j in m :: Wellformed(h, m[j]) && Under(m[j], rank, bound)) && h.hidden(k)
    requires shapes == PlainEntries(h, m, rank, bound)
    ensures Outs(done + {k}, shapes) == Outs(done, shapes)[k := Marker]
    ensures Only(Nodes(shapes), done + {k}) == Only(Nodes(shapes), done)
  {
  }

  // ---------------------------------------------------------------------------------------
  // Attributes of a log record
  // ---------------------------------------------------------------------------------------

  datatype Attr = Attr(key: Name, value: AttrValue)

  datatype AttrValue = Scalar(scalar: Text) | Group(attrs: seq<Attr>) | Any(any: Value)

  datatype OutAttr = OutAttr(key: Name, value: OutValue)

  datatype OutValue = Redacted | ScalarOut(scalar: Text) | GroupOut(attrs: seq<OutAttr>) | AnyOut(any: Out)

  predicate AttrWellformed(h: Heap, a: Attr) {
    match a.value
    case Scalar(_) => true
    case Group(attrs) => forall i | 0 <= i < |attrs| :: AttrWellformed(h, attrs[i])
    case Any(v) => Wellformed(h, v)
  }

  ghost predicate AttrKnown(a: Attr, rank: Rank) {
    match a.value
    case Scalar(_) => true
    case Group(attrs) => forall i | 0 <= i < |attrs| :: AttrKnown(attrs[i], rank)
    case Any(v) => Known(v, rank)
  }

  ghost predicate CleanAttr(h: Heap, o: OutAttr) {
    && (h.hidden(o.key) ==> o.value == Redacted)
    && match o.value
       case GroupOut(attrs) => forall i | 0 <= i < |attrs| :: CleanAttr(h, attrs[i])
       case AnyOut(out) => Clean(h, out)
       case _ => true
  }

  ghost predicate CleanAttrs(h: Heap, attrs: seq<Attr>, outs: seq<OutAttr>) {
    |outs| <= |attrs| && forall i | 0 <= i < |outs| :: outs[i].key == attrs[i].key && CleanAttr(h, outs[i])
  }

  datatype AttrShape = AttrShape(out: OutAttr, nodes: nat)

  ghost function PlainAttr(h: Heap, a: Attr, rank: Rank): AttrShape
    requires Acyclic(h, rank) && AttrWellformed(h, a) && AttrKnown(a, rank)
    decreases a, 1
  {
    if h.hidden(a.key) then AttrShape(OutAttr(a.key, Redacted), 0) else
    match a.value
    case Scalar(text) => AttrShape(OutAttr(a.key, ScalarOut(text)), 1)
    case Any(v) => AttrShape(OutAttr(a.key, AnyOut(Plain(h, v, rank).out)), Plain(h, v, rank).nodes + 1)
    case Group(attrs) =>
      assert a.value < a;
      var s := PlainAttrs(h, attrs, rank); AttrShape(OutAttr(a.key, GroupOut(s.0)), s.1 + 1)
  }

  ghost function PlainAttrs(h: Heap, attrs: seq<Attr>, rank: Rank): (seq<OutAttr>, nat)
    requires Acyclic(h, rank) && forall i | 0 <= i < |attrs| :: AttrWellformed(h, attrs[i]) && AttrKnown(attrs[i], rank)
    decreases attrs, 0
  {
    if attrs == [] then ([], 0) else
    var s := PlainAttrs(h, attrs[..|attrs| - 1], rank);
    var x := PlainAttr(h, attrs[|attrs| - 1], rank);
    (s.0 + [x.out], s.1 + x.nodes)
  }

  ghost predicate AttrFits(h: Heap, a: Attr, rank: Rank, depth: nat)
    requires Acyclic(h, rank) && AttrWellformed(h, a) && AttrKnown(a, rank)
  {
    h.hidden(a.key) ||
    (depth < MAX_DEPTH &&
     match a.value
     case Scalar(_) => true
     case Any(v) => Fits(h, v, rank, depth + 1)
     case Group(attrs) => forall i | 0 <= i < |attrs| :: AttrFits(h, attrs[i], rank, depth + 1))
  }

  /** Both budgets suffice for the attributes of a record or a group. */
  ghost predicate AttrsWithin(h: Heap, attrs: seq<Attr>, rank: Rank, depth: nat, nodes: nat)
    requires forall i | 0 <= i < |attrs| :: AttrWellformed(h, attrs[i])
  {
    && Acyclic(h, rank)
    && (forall i | 0 <= i < |attrs| :: AttrKnown(attrs[i], rank) && AttrFits(h, attrs[i], rank, depth))
    && nodes + PlainAttrs(h, attrs, rank).1 <= MAX_NODES
  }

  ghost predicate AttrWithin(h: Heap, a: Attr, rank: Rank, depth: nat, nodes: nat) {
    && Acyclic(h, rank) && AttrWellformed(h, a) && AttrKnown(a, rank) && AttrFits(h, a, rank, depth)
    && nodes + PlainAttr(h, a, rank).nodes <= MAX_NODES
  }

  /** An attribute within the budgets, of which `start` nodes are used up, comes out plain and uses
      up the nodes of its plain redaction. */
  ghost predicate ComesOutPlain(h: Heap, a: Attr, rank: Rank, depth: nat, start: nat, end: nat, out: OutAttr) {
    start <= end
    && (AttrWithin(h, a, rank, depth, start) ==>
          out == PlainAttr(h, a, rank).out && end == start + PlainAttr(h, a, rank).nodes)
  }

  /** The same of every attribute of a list, with `marks` the nodes used up before each and at the
      end. */
  ghost predicate EachPlain(h: Heap, attrs: seq<Attr>, rank: Rank, depth: nat, marks: seq<nat>, outs: seq<OutAttr>)
    requires |marks| == |outs| + 1 && |outs| <= |attrs|
  {
    forall i | 0 <= i < |outs| :: ComesOutPlain(h, attrs[i], rank, depth, marks[i], marks[i + 1], outs[i])
  }

  lemma OneMorePlain(h: Heap, attrs: seq<Attr>, rank: Rank, depth: nat, marks: seq<nat>, outs: seq<OutAttr>, mark: nat,
                     out: OutAttr)
    requires |marks| == |outs| + 1 && |outs| < |attrs| && EachPlain(h, attrs, rank, depth, marks, outs)
    requires ComesOutPlain(h, attrs[|outs|], rank, depth, marks[|outs|], mark, out)
    ensures EachPlain(h, attrs, rank, depth, marks + [mark], outs + [out])
  {
    var more, longer := marks + [mark], outs + [out];
    forall i | 0 <= i < |longer| ensures ComesOutPlain(h, attrs[i], rank, depth, more[i], more[i + 1], longer[i]) {
      if i < |outs| { assert ComesOutPlain(h, attrs[i], rank, depth, marks[i], marks[i + 1], outs[i]); }
    }
  }

  lemma GroupWithin(h: Heap, key: Name, attrs: seq<Attr>, rank: Rank, depth: nat, nodes: nat)
    requires AttrWithin(h, Attr(key, Group(attrs)), rank, depth, nodes) && !h.hidden(key)
    ensures depth < MAX_DEPTH && nodes < MAX_NODES && AttrsWithin(h, attrs, rank, depth + 1, nodes + 1)
    ensures PlainAttr(h, Attr(key, Group(attrs)), rank)
            == AttrShape(OutAttr(key, GroupOut(PlainAttrs(h, attrs, rank).0)), PlainAttrs(h, attrs, rank).1 + 1)
  {
  }

  lemma AnyWithin(h: Heap, key: Name, v: Value, rank: Rank, depth: nat, nodes: nat)
    requires AttrWithin(h, Attr(key, Any(v)), rank, depth, nodes) && !h.hidden(key)
    ensures depth < MAX_DEPTH && nodes < MAX_NODES && Within(h, v, rank, depth + 1, nodes + 1, {})
    ensures PlainAttr(h, Attr(key, Any(v)), rank)
            == AttrShape(OutAttr(key, AnyOut(Plain(h, v, rank).out)), Plain(h, v, rank).nodes + 1)
  {
  }

  lemma AttrsStep(h: Heap, attrs: seq<Attr>, rank: Rank, i: nat)
    requires i < |attrs| && Acyclic(h, rank)
    requires forall j | 0 <= j < |attrs| :: AttrWellformed(h, attrs[j]) && AttrKnown(attrs[j], rank)
    ensures var s, x := PlainAttrs(h, attrs[..i], rank), PlainAttr(h, attrs[i], rank);
            PlainAttrs(h, attrs[..i + 1], rank) == (s.0 + [x.out], s.1 + x.nodes)
  {
    assert attrs[..i + 1][..i] == attrs[..i];
  }

  lemma CleanGroup(h: Heap, key: Name, attrs: seq<Attr>, outs: seq<OutAttr>)
    requires !h.hidden(key) && CleanAttrs(h, attrs, outs)
    ensures CleanAttr(h, OutAttr(key, GroupOut(outs)))
  {
  }

  lemma CleanOneMore(h: Heap, attrs: seq<Attr>, outs: seq<OutAttr>, out: OutAttr)
    requires |outs| < |attrs| && CleanAttrs(h, attrs, outs) && CleanAttr(h, out) && out.key == attrs[|outs|].key
    ensures CleanAttrs(h, attrs, outs + [out])
  {
  }

  lemma PlainAttrKey(h: Heap, a: Attr, rank: Rank)
    requires Acyclic(h, rank) && AttrWellformed(h, a) && AttrKnown(a, rank)
    ensures PlainAttr(h, a, rank).out.key == a.key
  {
  }

  lemma AttrCutShort(h: Heap, a: Attr, rank: Rank, depth: nat, nodes: nat)
    requires !h.hidden(a.key) && (depth >= MAX_DEPTH || nodes >= MAX_NODES)
    ensures !AttrWithin(h, a, rank, depth, nodes)
  {
  }

  lemma {:induction false} AttrsPrefix(h: Heap, attrs: seq<Attr>, rank: Rank, depth: nat, nodes: nat, i: nat)
    requires i < |attrs| && forall j | 0 <= j < |attrs| :: AttrWellformed(h, attrs[j])
    requires AttrsWithin(h, attrs, rank, depth, nodes)
    ensures AttrsWithin(h, attrs[..i + 1], rank, depth, nodes)
    ensures AttrWithin(h, attrs[i], rank, depth, nodes + PlainAttrs(h, attrs[..i], rank).1)
    decreases |attrs|
  {
    assert attrs[..i + 1][..i] == attrs[..i];
    if i == |attrs| - 1 {
      assert attrs[..i + 1] == attrs;
    } else {
      var init := attrs[..|attrs| - 1];
      AttrsPrefix(h, init, rank, depth, nodes, i);
      assert init[..i + 1] == attrs[..i + 1] && init[..i] == attrs[..i];
    }
  }

  // ---------------------------------------------------------------------------------------
  // What comes out of any graph, cyclic or not
  // ---------------------------------------------------------------------------------------

  function Left(depth: nat): nat {
    if depth < MAX_DEPTH then MAX_DEPTH - depth else 0
  }

  /** An exported field whose name no later exported field has. */
  predicate Shown(fields: seq<Field>, i: nat)
    requires i < |fields|
  {
    fields[i].exported && forall j | i < j < |fields| :: !(fields[j].exported && fields[j].name == fields[i].name)
  }

  /** The names of the exported fields. */
  function Exported(fields: seq<Field>): set<Name> {
    if fields == [] then {} else
    var f := fields[|fields| - 1];
    Exported(fields[..|fields| - 1]) + if f.exported then {f.name} else {}
  }

  lemma {:induction false} ExportedNames(fields: seq<Field>)
    ensures forall i | 0 <= i < |fields| :: fields[i].exported ==> fields[i].name in Exported(fields)
    ensures forall k | k in Exported(fields) ::
              exists i :: 0 <= i < |fields| && fields[i].exported && fields[i].name == k
    decreases |fields|
  {
    if fields != [] {
      var less, last := fields[..|fields| - 1], fields[|fields| - 1];
      ExportedNames(less);
      forall i | 0 <= i < |fields| && fields[i].exported ensures fields[i].name in Exported(fields) {
        if i < |less| { assert less[i] == fields[i]; }
      }
      forall k | k in Exported(fields)
        ensures exists i :: 0 <= i < |fields| && fields[i].exported && fields[i].name == k
      {
        if k in Exported(less) {
          var i :| 0 <= i < |less| && less[i].exported && less[i].name == k;
          assert fields[i] == less[i];
        } else {
          assert fields[|less|] == last;
        }
      }
    }
  }

  lemma ShownBefore(fields: seq<Field>, i: nat, j: nat)
    requires i < |fields| && j < i && Shown(fields[..i + 1], j)
    ensures fields[..i][j] == fields[..i + 1][j] && Shown(fields[..i], j)
    ensures fields[i].exported ==> fields[..i][j].name != fields[i].name
  {
    var less, more := fields[..i], fields[..i + 1];
    assert more[i] == fields[i];
    forall k | j < k < i ensures !(less[k].exported && less[k].name == less[j].name) { assert more[k] == less[k]; }
  }

  /** What is made of a value at a depth, inside the maps `visited`: a copy with sensitive names
      marked, cut short at the depth budget, at a map that it is inside of, and, only if the node
      budget is used up (`spent`), elsewhere. */
  ghost predicate Copies(h: Heap, v: Value, out: Out, depth: nat, visited: set<Addr>, spent: bool)
    requires Closed(h) && Wellformed(h, v)
    decreases Left(depth), 0
  {
    if v.Invalid? then out == Nil
    else if depth >= MAX_DEPTH then out == Marker
    else if spent && out == Marker then true
    else
      match v
      case Leaf(text) => out == Raw(text)
      case Pointer(a) =>
        assert CellWellformed(h, h.cells[a]);
        Copies(h, h.cells[a].value, out, depth + 1, visited, spent)
      case Struct(fields) => out.Record? && FieldsCopy(h, fields, out.fields, depth + 2, visited, spent)
      case List(a) =>
        assert CellWellformed(h, h.cells[a]);
        out.Sequence? && ItemsCopy(h, h.cells[a].values, out.items, depth + 2, visited, spent)
      case Table(a) =>
        assert CellWellformed(h, h.cells[a]);
        if a in visited then out == Cycle
        else out.Record? && EntriesCopy(h, h.cells[a].entries, out.fields, depth + 1, visited + {a}, spent)
  }

  ghost predicate FieldsCopy(h: Heap, fields: seq<Field>, m: map<Name, Out>, depth: nat, visited: set<Addr>,
                             spent: bool)
    requires Closed(h) && forall i | 0 <= i < |fields| :: Wellformed(h, fields[i].value)
    decreases Left(depth), 2
  {
    && m.Keys == Exported(fields)
    && forall i | 0 <= i < |fields| && Shown(fields, i) :: FieldCopies(h, fields[i], m, depth, visited, spent)
  }

  /** What one field contributes. */
  ghost predicate FieldCopies(h: Heap, f: Field, m: map<Name, Out>, depth: nat, visited: set<Addr>, spent: bool)
    requires Closed(h) && Wellformed(h, f.value)
    decreases Left(depth), 1
  {
    f.name in m
    && if h.hidden(f.name) then m[f.name] == Marker else Copies(h, f.value, m[f.name], depth, visited, spent)
  }

  ghost predicate ItemsCopy(h: Heap, vs: seq<Value>, items: seq<Out>, depth: nat, visited: set<Addr>, spent: bool)
    requires Closed(h) && forall i | 0 <= i < |vs| :: Wellformed(h, vs[i])
    decreases Left(depth), 1
  {
    |items| == |vs| && forall i | 0 <= i < |vs| :: Copies(h, vs[i], items[i], depth, visited, spent)
  }

  ghost predicate EntriesCopy(h: Heap, m: map<Name, Value>, outs: map<Name, Out>, depth: nat, visited: set<Addr>,
                              spent: bool)
    requires Closed(h) && forall k | k in m :: Wellformed(h, m[k])
    decreases Left(depth), 1
  {
    outs.Keys == m.Keys && forall k | k in m ::
      if h.hidden(k) then outs[k] == Marker else Copies(h, m[k], outs[k], depth, visited, spent)
  }

  /** Using up more of the node budget later changes nothing about what is there. */
  lemma {:induction false} CopiesOn(h: Heap, v: Value, out: Out, depth: nat, visited: set<Addr>, spent: bool)
    requires Closed(h) && Wellformed(h, v) && Copies(h, v, out, depth, visited, spent)
    ensures Copies(h, v, out, depth, visited, true)
    decreases Left(depth), 0
  {
    if depth < MAX_DEPTH && out != Marker {
      match v
      case Pointer(a) =>
        assert CellWellformed(h, h.cells[a]);
        CopiesOn(h, h.cells[a].value, out, depth + 1, visited, spent);
      case Struct(fields) => FieldsCopyOn(h, fields, out.fields, depth + 2, visited, spent);
      case List(a) =>
        assert CellWellformed(h, h.cells[a]);
        ItemsCopyOn(h, h.cells[a].values, out.items, depth + 2, visited, spent);
      case Table(a) =>
        assert CellWellformed(h, h.cells[a]);
        if a !in visited { EntriesCopyOn(h, h.cells[a].entries, out.fields, depth + 1, visited + {a}, spent); }
      case _ =>
    }
  }

  lemma {:induction false} FieldsCopyOn(h: Heap, fields: seq<Field>, m: map<Name, Out>, depth: nat,
                                        visited: set<Addr>, spent: bool)
    requires Closed(h) && forall i | 0 <= i < |fields| :: Wellformed(h, fields[i].value)
    requires FieldsCopy(h, fields, m, depth, visited, spent)
    ensures FieldsCopy(h, fields, m, depth, visited, true)
    decreases Left(depth), 1
  {
    forall i | 0 <= i < |fields| && Shown(fields, i) ensures FieldCopies(h, fields[i], m, depth, visited, true) {
      assert FieldCopies(h, fields[i], m, depth, visited, spent);
      if !h.hidden(fields[i].name) { CopiesOn(h, fields[i].value, m[fields[i].name], depth, visited, spent); }
    }
  }

  lemma {:induction false} ItemsCopyOn(h: Heap, vs: seq<Value>, items: seq<Out>, depth: nat, visited: set<Addr>,
                                       spent: bool)
    requires Closed(h) && forall i | 0 <= i < |vs| :: Wellformed(h, vs[i])
    requires ItemsCopy(h, vs, items, depth, visited, spent)
    ensures ItemsCopy(h, vs, items, depth, visited, true)
    decreases Left(depth), 1
  {
    forall i | 0 <= i < |vs| ensures Copies(h, vs[i], items[i], depth, visited, true) {
      CopiesOn(h, vs[i], items[i], depth, visited, spent);
    }
  }

  lemma {:induction false} EntriesCopyOn(h: Heap, m: map<Name, Value>, outs: map<Name, Out>, depth: nat,
                                         visited: set<Addr>, spent: bool)
    requires Closed(h) && forall k | k in m :: Wellformed(h, m[k])
    requires EntriesCopy(h, m, outs, depth, visited, spent)
    ensures EntriesCopy(h, m, outs, depth, visited, true)
    decreases Left(depth), 1
  {
    forall k | k in m && !h.hidden(k) ensures Copies(h, m[k], outs[k], depth, visited, true) {
      CopiesOn(h, m[k], outs[k], depth, visited, spent);
    }
  }

  /** The fields up to the next one: it sets the entry of its name, if it is exported. */
  lemma FieldsCopyMore(h: Heap, fields: seq<Field>, i: nat, m: map<Name, Out>, m': map<Name, Out>, depth: nat,
                       visited: set<Addr>, before: bool, spent: bool)
    requires Closed(h) && i < |fields| && forall j | 0 <= j < |fields| :: Wellformed(h, fields[j].value)
    requires FieldsCopy(h, fields[..i], m, depth, visited, before) && (before ==> spent)
    requires if fields[i].exported
             then FieldCopies(h, fields[i], m', depth, visited, spent)
                  && m' == m[fields[i].name := m'[fields[i].name]]
             else m' == m
    ensures FieldsCopy(h, fields[..i + 1], m', depth, visited, spent)
  {
    var more := fields[..i + 1];
    assert more[..i] == fields[..i];
    if spent { FieldsCopyOn(h, fields[..i], m, depth, visited, before); }
    forall j | 0 <= j < |more| && Shown(more, j) ensures FieldCopies(h, more[j], m', depth, visited, spent) {
      if j < i {
        ShownBefore(fields, i, j);
        assert FieldCopies(h, fields[..i][j], m, depth, visited, spent);
      } else {
        assert more[j] == fields[i];
      }
    }
  }

  /** The same of an attribute of a record: a name that is sensitive, the depth budget and, if it is
      used up, the node budget hide its value. */
  ghost predicate AttrCopies(h: Heap, a: Attr, o: OutAttr, depth: nat, spent: bool)
    requires Closed(h) && AttrWellformed(h, a)
  {
    o.key == a.key &&
    if h.hidden(a.key) || depth >= MAX_DEPTH then o.value == Redacted
    else if spent && o.value == Redacted then true
    else
      match a.value
      case Scalar(text) => o.value == ScalarOut(text)
      case Any(v) => o.value.AnyOut? && Copies(h, v, o.value.any, depth + 1, {}, spent)
      case Group(attrs) =>
        o.value.GroupOut? && |o.value.attrs| == |attrs|
        && forall i | 0 <= i < |attrs| :: AttrCopies(h, attrs[i], o.value.attrs[i], depth + 1, spent)
  }

  ghost predicate AttrsCopy(h: Heap, attrs: seq<Attr>, outs: seq<OutAttr>, depth: nat, spent: bool)
    requires Closed(h) && |outs| <= |attrs| && forall i | 0 <= i < |attrs| :: AttrWellformed(h, attrs[i])
  {
    forall i | 0 <= i < |outs| :: AttrCopies(h, attrs[i], outs[i], depth, spent)
  }

  lemma {:induction false} AttrCopiesOn(h: Heap, a: Attr, o: OutAttr, depth: nat, spent: bool)
    requires Closed(h) && AttrWellformed(h, a) && AttrCopies(h, a, o, depth, spent)
    ensures AttrCopies(h, a, o, depth, true)
    decreases a
  {
    if !h.hidden(a.key) && depth < MAX_DEPTH && o.value != Redacted {
      match a.value
      case Scalar(_) =>
      case Any(v) => CopiesOn(h, v, o.value.any, depth + 1, {}, spent);
      case Group(attrs) =>
        forall i | 0 <= i < |attrs| ensures AttrCopies(h, attrs[i], o.value.attrs[i], depth + 1, true) {
          AttrCopiesOn(h, attrs[i], o.value.attrs[i], depth + 1, spent);
        }
    }
  }

  lemma AttrsCopyMore(h: Heap, attrs: seq<Attr>, outs: seq<OutAttr>, out: OutAttr, depth: nat, before: bool,
                      spent: bool)
    requires Closed(h) && |outs| < |attrs| && forall i | 0 <= i < |attrs| :: AttrWellformed(h, attrs[i])
    requires AttrsCopy(h, attrs, outs, depth, before) && (before ==> spent)
    requires AttrCopies(h, attrs[|outs|], out, depth, spent)
    ensures AttrsCopy(h, attrs, outs + [out], depth, spent)
  {
    var more := outs + [out];
    forall i | 0 <= i < |more| ensures AttrCopies(h, attrs[i], more[i], depth, spent) {
      if i < |outs| && spent { AttrCopiesOn(h, attrs[i], outs[i], depth, before); }
    }
  }

  lemma CleanAdded(h: Heap, m: map<Name, Out>, k: Name, out: Out)
    requires Clean(h, Record(m)) && Clean(h, out) && (h.hidden(k) ==> out == Marker)
    ensures Clean(h, Record(m[k := out]))
  {
  }

  lemma ItemsCopyMore(h: Heap, vs: seq<Value>, i: nat, items: seq<Out>, out: Out, depth: nat, visited: set<Addr>,
                      before: bool, spent: bool)
    requires Closed(h) && i < |vs| && forall j | 0 <= j < |vs| :: Wellformed(h, vs[j])
    requires ItemsCopy(h, vs[..i], items, depth, visited, before) && (before ==> spent)
    requires Copies(h, vs[i], out, depth, visited, spent)
    ensures ItemsCopy(h, vs[..i + 1], items + [out], depth, visited, spent)
  {
    if spent { ItemsCopyOn(h, vs[..i], items, depth, visited, before); }
    forall j | 0 <= j < i + 1 ensures Copies(h, vs[..i + 1][j], (items + [out])[j], depth, visited, spent) {
      if j < i { assert vs[..i][j] == vs[j]; }
    }
  }

  lemma EntriesCopyMore(h: Heap, m: map<Name, Value>, done: set<Name>, outs: map<Name, Out>, k: Name, out: Out,
                        depth: nat, visited: set<Addr>, before: bool, spent: bool)
    requires Closed(h) && k in m && k !in done && forall j | j in m :: Wellformed(h, m[j])
    requires EntriesCopy(h, Only(m, done), outs, depth, visited, before) && (before ==> spent)
    requires if h.hidden(k) then out == Marker else Copies(h, m[k], out, depth, visited, spent)
    ensures EntriesCopy(h, Only(m, done + {k}), outs[k := out], depth, visited, spent)
  {
    var less, more := Only(m, done), Only(m, done + {k});
    if spent { EntriesCopyOn(h, less, outs, depth, visited, before); }
    forall j | j in more
      ensures if h.hidden(j) then outs[k := out][j] == Marker
              else Copies(h, more[j], outs[k := out][j], depth, visited, spent)
    {
      if j != k { assert j in less && less[j] == more[j]; }
    }
  }

  // ---------------------------------------------------------------------------------------
  // The redactor
  // ---------------------------------------------------------------------------------------

  class RedactionState {
    var visited: set<Addr>
    var nodes: nat

    constructor ()
      ensures visited == {} && nodes == 0
    {
      visited, nodes := {}, 0;
    }

    /** redactReflectValue.  `rank` is any ranking; where it shows the graph to be free of cycles
        and both budgets suffice, the result is the plain redaction. */
    method RedactValue(h: Heap, v: Value, depth: nat, ghost rank: Rank) returns (out: Out)
      requires Closed(h) && Wellformed(h, v) && nodes <= MAX_NODES
      modifies this
      ensures visited == old(visited) && old(nodes) <= nodes <= MAX_NODES
      ensures Clean(h, out) && Copies(h, v, out, depth, old(visited), nodes >= 1024)
      ensures !v.Invalid? && (depth >= 32 || old(nodes) >= 1024) ==> out == Marker && nodes == old(nodes)
      ensures v.Leaf? && depth < 32 && old(nodes) < 1024 ==> out == Raw(v.text) && nodes == old(nodes) + 1
      ensures Within(h, v, rank, depth, old(nodes), old(visited)) ==>
                out == Plain(h, v, rank).out && nodes == old(nodes) + Plain(h, v, rank).nodes
      decreases if depth < 40 then 40 - depth else 0, 4
    {
      if v.Invalid? { return Nil; }
      if depth >= MAX_DEPTH || nodes >= MAX_NODES {
        CutShort(h, v, rank, depth, nodes, visited);
        return Marker;
      }
      nodes := nodes + 1;
      out := RedactKind(h, v, depth, rank);
    }

    method RedactKind(h: Heap, v: Value, depth: nat, ghost rank: Rank) returns (out: Out)
      requires Closed(h) && Wellformed(h, v) && !v.Invalid? && 0 < nodes <= MAX_NODES && depth < MAX_DEPTH
      modifies this
      ensures visited == old(visited) && old(nodes) <= nodes <= MAX_NODES
      ensures Clean(h, out) && Copies(h, v, out, depth, old(visited), nodes >= 1024)
      ensures v.Leaf? ==> out == Raw(v.text) && nodes == old(nodes)
      ensures Within(h, v, rank, depth, old(nodes) - 1, old(visited)) ==>
                out == Plain(h, v, rank).out && nodes == old(nodes) - 1 + Plain(h, v, rank).nodes
      decreases 40 - depth, 3
    {
      match v
      case Leaf(text) => out := Raw(text);
      case Pointer(a) =>
        if Within(h, v, rank, depth, nodes - 1, visited) { PointerWithin(h, a, rank, depth, nodes - 1, visited); }
        assert CellWellformed(h, h.cells[a]);
        out := RedactValue(h, h.cells[a].value, depth + 1, rank);
      case Struct(fields) =>
        out := RedactFields(h, fields, depth, rank);
      case List(a) =>
        out := RedactList(h, a, depth, rank);
      case Table(a) =>
        out := RedactTable(h, a, depth, rank);
    }

    /** The struct branch. */
    method RedactFields(h: Heap, fields: seq<Field>, depth: nat, ghost rank: Rank) returns (out: Out)
      requires Closed(h) && Wellformed(h, Struct(fields)) && 0 < nodes <= MAX_NODES && depth < MAX_DEPTH
      modifies this
      ensures visited == old(visited) && old(nodes) <= nodes <= MAX_NODES
      ensures Clean(h, out) && Copies(h, Struct(fields), out, depth, old(visited), nodes >= 1024)
      ensures Within(h, Struct(fields), rank, depth, old(nodes) - 1, old(visited)) ==>
                out == Plain(h, Struct(fields), rank).out
                && nodes == old(nodes) - 1 + Plain(h, Struct(fields), rank).nodes
      decreases 40 - depth, 2
    {
      if Within(h, Struct(fields), rank, depth, nodes - 1, visited) {
        StructWithin(h, fields, rank, depth, nodes - 1, visited);
      }
      var m := RedactStruct(h, fields, depth + 1, rank);
      out := Record(m);
    }

    /** The branch of slices and arrays. */
    method RedactList(h: Heap, a: Addr, depth: nat, ghost rank: Rank) returns (out: Out)
      requires Closed(h) && Wellformed(h, List(a)) && 0 < nodes <= MAX_NODES && depth < MAX_DEPTH
      modifies this
      ensures visited == old(visited) && old(nodes) <= nodes <= MAX_NODES
      ensures Clean(h, out) && Copies(h, List(a), out, depth, old(visited), nodes >= 1024)
      ensures Within(h, List(a), rank, depth, old(nodes) - 1, old(visited)) ==>
                out == Plain(h, List(a), rank).out && nodes == old(nodes) - 1 + Plain(h, List(a), rank).nodes
      decreases 40 - depth, 2
    {
      if Within(h, List(a), rank, depth, nodes - 1, visited) { ListWithin(h, a, rank, depth, nodes - 1, visited); }
      assert CellWellformed(h, h.cells[a]);
      var items := RedactSequence(h, h.cells[a].values, depth + 1, rank, if a in rank then rank[a] else 0);
      out := Sequence(items);
    }

    /** The map branch: a map that is being visited already is a cycle. */
    method RedactTable(h: Heap, a: Addr, depth: nat, ghost rank: Rank) returns (out: Out)
      requires Closed(h) && Wellformed(h, Table(a)) && 0 < nodes <= MAX_NODES && depth < MAX_DEPTH
      modifies this
      ensures visited == old(visited) && old(nodes) <= nodes <= MAX_NODES
      ensures Clean(h, out) && Copies(h, Table(a), out, depth, old(visited), nodes >= 1024)
      ensures a in old(visited) <==> out == Cycle
      ensures Within(h, Table(a), rank, depth, old(nodes) - 1, old(visited)) ==>
                out == Plain(h, Table(a), rank).out && nodes == old(nodes) - 1 + Plain(h, Table(a), rank).nodes
      decreases 40 - depth, 2
    {
      ghost var within := Within(h, Table(a), rank, depth, nodes - 1, visited);
      ghost var shapes: map<Name, Shape> := map[];
      if within {
        TableWithin(h, a, rank, depth, nodes - 1, visited);
        shapes := PlainEntries(h, h.cells[a].entries, rank, rank[a]);
      }
      if a in visited { return Cycle; }
      assert CellWellformed(h, h.cells[a]);
      visited := visited + {a};
      var m := RedactEntries(h, h.cells[a].entries, depth, rank, if a in rank then rank[a] else 0, within, shapes);
      visited := visited - {a};
      out := Record(m);
    }

    /** The loop over a map, in whatever order the runtime chooses. */
    method RedactEntries(h: Heap, m: map<Name, Value>, depth: nat, ghost rank: Rank, ghost bound: nat,
                         ghost within: bool, ghost shapes: map<Name, Shape>)
      returns (redacted: map<Name, Out>)
      requires Closed(h) && (forall k | k in m :: Wellformed(h, m[k])) && nodes <= MAX_NODES && depth < MAX_DEPTH
      requires within ==> EntriesWithin(h, m, rank, bound, depth + 1, nodes, visited)
                          && shapes == PlainEntries(h, m, rank, bound)
      modifies this
      ensures visited == old(visited) && old(nodes) <= nodes <= MAX_NODES
      ensures redacted.Keys == m.Keys && Clean(h, Record(redacted))
      ensures EntriesCopy(h, m, redacted, depth + 1, visited, nodes >= 1024)
      ensures within ==> redacted == Outs(m.Keys, shapes) && nodes == old(nodes) + Sum(Nodes(shapes))
      decreases 40 - depth, 1, 1
    {
      redacted := map[];
      var todo := m.Keys;
      ghost var done: set<Name> := {};
      ghost var costs := Nodes(shapes);
      NoEntries(shapes);
      while todo != {}
        invariant todo + done == m.Keys && todo !! done && redacted.Keys == done
        invariant visited == old(visited) && old(nodes) <= nodes <= MAX_NODES
        invariant Clean(h, Record(redacted))
        invariant EntriesCopy(h, Only(m, done), redacted, depth + 1, visited, nodes >= 1024)
        invariant within ==> redacted == Outs(done, shapes)
        invariant within ==> nodes == old(nodes) + Sum(Only(costs, done))
      {
        var key :| key in todo;
        redacted := RedactNext(h, m, key, depth, rank, bound, within, shapes, old(nodes), done, redacted);
        todo, done := todo - {key}, done + {key};
      }
      assert Only(m, done) == m;
      if within { AllEntries(h, m, rank, bound); }
    }

    /** One more entry, after the entries `done`. */
    method RedactNext(h: Heap, m: map<Name, Value>, key: Name, depth: nat, ghost rank: Rank, ghost bound: nat,
                      ghost within: bool, ghost shapes: map<Name, Shape>, ghost start: nat, ghost done: set<Name>,
                      redacted: map<Name, Out>)
      returns (more: map<Name, Out>)
      requires Closed(h) && (forall k | k in m :: Wellformed(h, m[k])) && nodes <= MAX_NODES && depth < MAX_DEPTH
      requires key in m && key !in done && redacted.Keys == done && Clean(h, Record(redacted))
      requires within ==> EntriesWithin(h, m, rank, bound, depth + 1, start, visited)
                          && shapes == PlainEntries(h, m, rank, bound)
      requires EntriesCopy(h, Only(m, done), redacted, depth + 1, visited, nodes >= 1024)
      requires within ==> redacted == Outs(done, shapes) && nodes == start + Sum(Only(Nodes(shapes), done))
      modifies this
      ensures visited == old(visited) && old(nodes) <= nodes <= MAX_NODES
      ensures more.Keys == done + {key} && Clean(h, Record(more))
      ensures EntriesCopy(h, Only(m, done + {key}), more, depth + 1, visited, nodes >= 1024)
      ensures within ==> more == Outs(done + {key}, shapes) && nodes == start + Sum(Only(Nodes(shapes), done + {key}))
      decreases 40 - depth, 1, 0
    {
      if within {
        if h.hidden(key) {
          EntrySkip(h, m, rank, bound, shapes, done, key);
        } else {
          EntryStep(h, m, rank, bound, depth + 1, start, visited, shapes, done, key);
        }
      }
      ghost var spent := nodes >= 1024;
      var out := RedactEntry(h, key, m[key], depth, rank);
      more := redacted[key := out];
      CleanAdded(h, redacted, key, out);
      assert EntriesCopy(h, Only(m, done + {key}), more, depth + 1, visited, nodes >= 1024) by {
        EntriesCopyMore(h, m, done, redacted, key, out, depth + 1, visited, spent, nodes >= 1024);
      }
    }

    /** One entry of a map. */
    method RedactEntry(h: Heap, key: Name, v: Value, depth: nat, ghost rank: Rank) returns (out: Out)
      requires Closed(h) && Wellformed(h, v) && nodes <= MAX_NODES && depth < MAX_DEPTH
      modifies this
      ensures visited == old(visited) && old(nodes) <= nodes <= MAX_NODES
      ensures Clean(h, out) && (h.hidden(key) ==> out == Marker && nodes == old(nodes))
      ensures !h.hidden(key) ==> Copies(h, v, out, depth + 1, visited, nodes >= 1024)
      ensures !h.hidden(key) && Within(h, v, rank, depth + 1, old(nodes), old(visited)) ==>
                out == Plain(h, v, rank).out && nodes == old(nodes) + Plain(h, v, rank).nodes
      decreases 40 - depth, 0
    {
      if h.hidden(key) {
        out := Marker;
      } else {
        out := RedactValue(h, v, depth + 1, rank);
      }
    }

    /** One field of a struct. */
    method RedactField(h: Heap, field: Field, depth: nat, ghost rank: Rank, redacted: map<Name, Out>)
      returns (more: map<Name, Out>)
      requires Closed(h) && Wellformed(h, field.value) && nodes <= MAX_NODES && depth <= MAX_DEPTH
      requires Clean(h, Record(redacted))
      modifies this
      ensures visited == old(visited) && old(nodes) <= nodes <= MAX_NODES
      ensures Clean(h, Record(more))
      ensures !field.exported ==> more == redacted && nodes == old(nodes)
      ensures field.exported ==>
        && FieldCopies(h, field, more, depth + 1, visited, nodes >= 1024)
        && more == redacted[field.name := more[field.name]]
      ensures field.exported && h.hidden(field.name) ==> more[field.name] == Marker && nodes == old(nodes)
      ensures field.exported && !h.hidden(field.name)
              && Within(h, field.value, rank, depth + 1, old(nodes), old(visited)) ==>
                more[field.name] == Plain(h, field.value, rank).out
                && nodes == old(nodes) + Plain(h, field.value, rank).nodes
      decreases 40 - depth, 0
    {
      more := redacted;
      if field.exported {
        if h.hidden(field.name) {
          more := redacted[field.name := Marker];
        } else {
          var out := RedactValue(h, field.value, depth + 1, rank);
          more := redacted[field.name := out];
        }
      }
    }

    /** redactStruct. */
    method RedactStruct(h: Heap, fields: seq<Field>, depth: nat, ghost rank: Rank) returns (redacted: map<Name, Out>)
      requires Closed(h) && (forall i | 0 <= i < |fields| :: Wellformed(h, fields[i].value))
      requires nodes <= MAX_NODES && depth <= MAX_DEPTH
      modifies this
      ensures visited == old(visited) && old(nodes) <= nodes <= MAX_NODES
      ensures Clean(h, Record(redacted)) && FieldsCopy(h, fields, redacted, depth + 1, visited, nodes >= 1024)
      ensures forall i | 0 <= i < |fields| :: fields[i].exported ==> fields[i].name in redacted
      ensures redacted.Keys == Exported(fields)
      ensures FieldsWithin(h, fields, rank, depth + 1, old(nodes), old(visited)) ==>
                redacted == PlainFields(h, fields, rank).fields
                && nodes == old(nodes) + PlainFields(h, fields, rank).nodes
      decreases 40 - depth, 1
    {
      redacted := map[];
      ghost var within := FieldsWithin(h, fields, rank, depth + 1, nodes, visited);
      var index := 0;
      while index < |fields|
        invariant 0 <= index <= |fields|
        invariant visited == old(visited) && old(nodes) <= nodes <= MAX_NODES
        invariant Clean(h, Record(redacted))
        invariant FieldsCopy(h, fields[..index], redacted, depth + 1, visited, nodes >= 1024)
        invariant within ==> redacted == PlainFields(h, fields[..index], rank).fields
                             && nodes == old(nodes) + PlainFields(h, fields[..index], rank).nodes
      {
        if within { FieldsPrefix(h, fields, rank, depth + 1, old(nodes), old(visited), index); }
        ghost var before, spent := redacted, nodes >= 1024;
        redacted := RedactField(h, fields[index], depth, rank, redacted);
        FieldsCopyMore(h, fields, index, before, redacted, depth + 1, visited, spent, nodes >= 1024);
        index := index + 1;
      }
      assert fields[..|fields|] == fields;
      ExportedNames(fields);
    }

    /** redactSequence. */
    method RedactSequence(h: Heap, vs: seq<Value>, depth: nat, ghost rank: Rank, ghost bound: nat)
      returns (redacted: seq<Out>)
      requires Closed(h) && (forall i | 0 <= i < |vs| :: Wellformed(h, vs[i]))
      requires nodes <= MAX_NODES && depth <= MAX_DEPTH
      modifies this
      ensures visited == old(visited) && old(nodes) <= nodes <= MAX_NODES
      ensures |redacted| == |vs| && Clean(h, Sequence(redacted))
      ensures ItemsCopy(h, vs, redacted, depth + 1, visited, nodes >= 1024)
      ensures ItemsWithin(h, vs, rank, bound, depth + 1, old(nodes), old(visited)) ==>
                redacted == PlainItems(h, vs, rank, bound).0 && nodes == old(nodes) + PlainItems(h, vs, rank, bound).1
      decreases 40 - depth
    {
      redacted := [];
      ghost var within := ItemsWithin(h, vs, rank, bound, depth + 1, nodes, visited);
      var index := 0;
      while index < |vs|
        invariant 0 <= index <= |vs| && |redacted| == index
        invariant visited == old(visited) && old(nodes) <= nodes <= MAX_NODES
        invariant Clean(h, Sequence(redacted))
        invariant ItemsCopy(h, vs[..index], redacted, depth + 1, visited, nodes >= 1024)
        invariant within ==> redacted == PlainItems(h, vs[..index], rank, bound).0
                             && nodes == old(nodes) + PlainItems(h, vs[..index], rank, bound).1
      {
        if within { ItemsPrefix(h, vs, rank, bound, depth + 1, old(nodes), old(visited), index); }
        ghost var spent := nodes >= 1024;
        var out := RedactValue(h, vs[index], depth + 1, rank);
        ItemsCopyMore(h, vs, index, redacted, out, depth + 1, visited, spent, nodes >= 1024);
        redacted := redacted + [out];
        index := index + 1;
      }
      assert vs[..|vs|] == vs;
    }

    /** redactAttr. */
    method RedactAttr(h: Heap, attr: Attr, depth: nat, ghost rank: Rank) returns (out: OutAttr)
      requires Closed(h) && AttrWellformed(h, attr) && nodes <= MAX_NODES && visited == {}
      modifies this
      ensures visited == {} && old(nodes) <= nodes <= MAX_NODES
      ensures out.key == attr.key && CleanAttr(h, out) && AttrCopies(h, attr, out, depth, nodes >= 1024)
      ensures !h.hidden(attr.key) && attr.value.Scalar? && depth < 32 && old(nodes) < 1024 ==>
                out.value == ScalarOut(attr.value.scalar)
      ensures AttrWithin(h, attr, rank, depth, old(nodes)) ==>
                out == PlainAttr(h, attr, rank).out && nodes == old(nodes) + PlainAttr(h, attr, rank).nodes
      decreases if depth < 40 then 40 - depth else 0, 1
    {
      if h.hidden(attr.key) { return OutAttr(attr.key, Redacted); }
      if depth >= MAX_DEPTH || nodes >= MAX_NODES {
        AttrCutShort(h, attr, rank, depth, nodes);
        return OutAttr(attr.key, Redacted);
      }
      nodes := nodes + 1;
      if AttrWithin(h, attr, rank, depth, nodes - 1) { PlainAttrKey(h, attr, rank); }
      var value := RedactAttrValue(h, attr, depth, rank);
      out := OutAttr(attr.key, value);
    }

    method RedactAttrValue(h: Heap, attr: Attr, depth: nat, ghost rank: Rank) returns (out: OutValue)
      requires Closed(h) && AttrWellformed(h, attr) && !h.hidden(attr.key)
      requires 0 < nodes <= MAX_NODES && visited == {} && depth < MAX_DEPTH
      modifies this
      ensures visited == {} && old(nodes) <= nodes <= MAX_NODES
      ensures CleanAttr(h, OutAttr(attr.key, out))
      ensures AttrCopies(h, attr, OutAttr(attr.key, out), depth, nodes >= 1024)
      ensures attr.value.Scalar? ==> out == ScalarOut(attr.value.scalar)
      ensures AttrWithin(h, attr, rank, depth, old(nodes) - 1) ==>
                out == PlainAttr(h, attr, rank).out.value && nodes == old(nodes) - 1 + PlainAttr(h, attr, rank).nodes
      decreases 40 - depth, 0
    {
      match attr.value
      case Group(attrs) =>
        assert attr == Attr(attr.key, Group(attrs));
        out := RedactGroup(h, attr.key, attrs, depth, rank);
      case Any(v) =>
        assert attr == Attr(attr.key, Any(v));
        out := RedactAny(h, attr.key, v, depth, rank);
      case Scalar(text) =>
        out := ScalarOut(text);
    }

    method RedactGroup(h: Heap, key: Name, attrs: seq<Attr>, depth: nat, ghost rank: Rank) returns (out: OutValue)
      requires Closed(h) && (forall i | 0 <= i < |attrs| :: AttrWellformed(h, attrs[i])) && !h.hidden(key)
      requires 0 < nodes <= MAX_NODES && visited == {} && depth < MAX_DEPTH
      modifies this
      ensures visited == {} && old(nodes) <= nodes <= MAX_NODES
      ensures CleanAttr(h, OutAttr(key, out))
      ensures AttrCopies(h, Attr(key, Group(attrs)), OutAttr(key, out), depth, nodes >= 1024)
      ensures AttrWithin(h, Attr(key, Group(attrs)), rank, depth, old(nodes) - 1) ==>
                var plain := PlainAttr(h, Attr(key, Group(attrs)), rank);
                out == plain.out.value && nodes == old(nodes) - 1 + plain.nodes
      decreases 39 - depth, 3
    {
      if AttrWithin(h, Attr(key, Group(attrs)), rank, depth, nodes - 1) {
        GroupWithin(h, key, attrs, rank, depth, nodes - 1);
      }
      var outs;
      ghost var marks;
      outs, marks := RedactAttrs(h, attrs, depth + 1, rank);
      CleanGroup(h, key, attrs, outs);
      out := GroupOut(outs);
    }

    method RedactAny(h: Heap, key: Name, v: Value, depth: nat, ghost rank: Rank) returns (out: OutValue)
      requires Closed(h) && Wellformed(h, v) && !h.hidden(key)
      requires 0 < nodes <= MAX_NODES && visited == {} && depth < MAX_DEPTH
      modifies this
      ensures visited == {} && old(nodes) <= nodes <= MAX_NODES
      ensures CleanAttr(h, OutAttr(key, out))
      ensures AttrCopies(h, Attr(key, Any(v)), OutAttr(key, out), depth, nodes >= 1024)
      ensures AttrWithin(h, Attr(key, Any(v)), rank, depth, old(nodes) - 1) ==>
                var plain := PlainAttr(h, Attr(key, Any(v)), rank);
                out == plain.out.value && nodes == old(nodes) - 1 + plain.nodes
    {
      if AttrWithin(h, Attr(key, Any(v)), rank, depth, nodes - 1) {
        AnyWithin(h, key, v, rank, depth, nodes - 1);
      }
      var redacted := RedactValue(h, v, depth + 1, rank);
      out := AnyOut(redacted);
    }

    /** The loop over the attributes of a group, and over those of a record in Handle and
        WithAttrs. */
    method RedactAttrs(h: Heap, attrs: seq<Attr>, depth: nat, ghost rank: Rank)
      returns (outs: seq<OutAttr>, ghost marks: seq<nat>)
      requires Closed(h) && (forall i | 0 <= i < |attrs| :: AttrWellformed(h, attrs[i]))
      requires nodes <= MAX_NODES && visited == {} && depth <= MAX_DEPTH
      modifies this
      ensures visited == {} && old(nodes) <= nodes <= MAX_NODES
      ensures |outs| == |attrs| && CleanAttrs(h, attrs, outs)
      ensures |marks| == |attrs| + 1 && marks[0] == old(nodes) && marks[|attrs|] == nodes
      ensures AttrsCopy(h, attrs, outs, depth, nodes >= 1024)
      ensures EachPlain(h, attrs, rank, depth, marks, outs)
      ensures AttrsWithin(h, attrs, rank, depth, old(nodes)) ==>
                outs == PlainAttrs(h, attrs, rank).0 && nodes == old(nodes) + PlainAttrs(h, attrs, rank).1
      decreases 40 - depth, 2
    {
      outs, marks := [], [nodes];
      ghost var within := AttrsWithin(h, attrs, rank, depth, nodes);
      var i := 0;
      while i < |attrs|
        invariant 0 <= i <= |attrs| && |outs| == i
        invariant |marks| == i + 1 && marks[0] == old(nodes) && marks[i] == nodes
        invariant EachPlain(h, attrs, rank, depth, marks, outs)
        invariant AttrsCopy(h, attrs, outs, depth, nodes >= 1024)
        invariant visited == {} && old(nodes) <= nodes <= MAX_NODES
        invariant CleanAttrs(h, attrs, outs)
        invariant within ==> outs == PlainAttrs(h, attrs[..i], rank).0
                             && nodes == old(nodes) + PlainAttrs(h, attrs[..i], rank).1
      {
        if within {
          AttrsPrefix(h, attrs, rank, depth, old(nodes), i);
          AttrsStep(h, attrs, rank, i);
        }
        ghost var spent := nodes >= 1024;
        var out := RedactAttr(h, attrs[i], depth, rank);
        assert AttrsCopy(h, attrs, outs + [out], depth, nodes >= 1024) by {
          AttrsCopyMore(h, attrs, outs, out, depth, spent, nodes >= 1024);
        }
        assert CleanAttrs(h, attrs, outs + [out]) by { CleanOneMore(h, attrs, outs, out); }
        assert EachPlain(h, attrs, rank, depth, marks + [nodes], outs + [out]) by {
          OneMorePlain(h, attrs, rank, depth, marks, outs, nodes, out);
        }
        outs, marks := outs + [out], marks + [nodes];
        i := i + 1;
      }
      assert attrs[..|attrs|] == attrs;
    }
  }

  /** The graph of a log record: the names on the handler's list are sensitive, however they are
      spelled. */
  function Logged(cells: map<Addr, Cell>): Heap {
    Heap(cells, (n: Name) => Sensitive(n.text))
  }

  /** Every spelling of a listed word is marked, at every level. */
  ghost predicate Marked(out: Out) {
    match out
    case Record(fields) =>
      forall k | k in fields ::
        (forall w | w in SENSITIVE && Spells(k.text, w) :: fields[k] == Marker) && Marked(fields[k])
    case Sequence(items) => forall i | 0 <= i < |items| :: Marked(items[i])
    case _ => true
  }

  ghost predicate MarkedAttr(o: OutAttr) {
    && (forall w | w in SENSITIVE && Spells(o.key.text, w) :: o.value == Redacted)
    && match o.value
       case GroupOut(attrs) => forall i | 0 <= i < |attrs| :: MarkedAttr(attrs[i])
       case AnyOut(out) => Marked(out)
       case _ => true
  }

  lemma SpelledHidden(cells: map<Addr, Cell>, k: Name, w: string)
    requires w in SENSITIVE && Spells(k.text, w)
    ensures Logged(cells).hidden(k)
  {
    ListedWord(w);
    SpelledExactly(k.text, w);
  }

  lemma {:induction false} CleanIsMarked(cells: map<Addr, Cell>, out: Out)
    requires Clean(Logged(cells), out)
    ensures Marked(out)
    decreases out
  {
    match out
    case Record(fields) =>
      forall k | k in fields
        ensures (forall w | w in SENSITIVE && Spells(k.text, w) :: fields[k] == Marker) && Marked(fields[k])
      {
        CleanIsMarked(cells, fields[k]);
        forall w | w in SENSITIVE && Spells(k.text, w) ensures fields[k] == Marker { SpelledHidden(cells, k, w); }
      }
    case Sequence(items) => forall i | 0 <= i < |items| ensures Marked(items[i]) { CleanIsMarked(cells, items[i]); }
    case _ =>
  }

  lemma {:induction false} CleanIsMarkedAttr(cells: map<Addr, Cell>, o: OutAttr)
    requires CleanAttr(Logged(cells), o)
    ensures MarkedAttr(o)
    decreases o
  {
    forall w | w in SENSITIVE && Spells(o.key.text, w) ensures o.value == Redacted { SpelledHidden(cells, o.key, w); }
    match o.value
    case GroupOut(attrs) =>
      forall i | 0 <= i < |attrs| ensures MarkedAttr(attrs[i]) { CleanIsMarkedAttr(cells, attrs[i]); }
    case AnyOut(out) => CleanIsMarked(cells, out);
    case _ =>
  }

  /** The attributes a handler passes on for a record: every sensitive name is hidden at every
      level that was traversed, and the node budget holds for the whole record.  Every attribute
      that is free of cycles and within both budgets, counting the nodes visited before it, comes
      out as its plain redaction, whatever the other attributes hold. */
  method Handle(cells: map<Addr, Cell>, attrs: seq<Attr>, ghost rank: Rank)
    returns (outs: seq<OutAttr>, visitedNodes: nat, ghost marks: seq<nat>)
    requires Closed(Logged(cells)) && forall i | 0 <= i < |attrs| :: AttrWellformed(Logged(cells), attrs[i])
    ensures visitedNodes <= 1024
    ensures |outs| == |attrs| && CleanAttrs(Logged(cells), attrs, outs)
    ensures forall i, w | 0 <= i < |outs| && w in SENSITIVE && Spells(attrs[i].key.text, w) :: outs[i].value == Redacted
    ensures forall i | 0 <= i < |outs| :: MarkedAttr(outs[i])
    ensures AttrsCopy(Logged(cells), attrs, outs, 0, visitedNodes >= 1024)
    ensures |marks| == |attrs| + 1 && marks[0] == 0 && marks[|attrs|] == visitedNodes
    ensures EachPlain(Logged(cells), attrs, rank, 0, marks, outs)
    ensures forall i | 0 <= i < |outs| && Sensitive(attrs[i].key.text) :: outs[i].value == Redacted
    ensures AttrsWithin(Logged(cells), attrs, rank, 0, 0) ==> outs == PlainAttrs(Logged(cells), attrs, rank).0
  {
    var state := new RedactionState();
    var h := Logged(cells);
    outs, marks := state.RedactAttrs(h, attrs, 0, rank);
    visitedNodes := state.nodes;
    forall i | 0 <= i < |outs|
      ensures Sensitive(attrs[i].key.text) ==> outs[i].value == Redacted
      ensures outs[i].key == attrs[i].key && MarkedAttr(outs[i])
    {
      assert CleanAttr(h, outs[i]) && (Sensitive(attrs[i].key.text) ==> h.hidden(attrs[i].key));
      CleanIsMarkedAttr(cells, outs[i]);
    }
  }
}
