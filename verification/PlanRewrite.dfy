/** The rewrite that gives every scan of a query the query's time range, unless the scan brings
    a filter on time of its own: on plans with subqueries, correlated ones included. */
module PlanRewrite {
  import opened Values
  import opened Seqs
  import opened TimeFilters
  import opened Grouping

  /** A logical plan.  `Restrict` is a filter by a conjunction; every other operator is a `Node`
      with its inputs and the subqueries in its expressions. */
  datatype Plan =
    | Scan(table: string, filters: seq<Expr>)
    | Restrict(conjuncts: seq<Expr>, input: Plan)
    | Node(op: nat, inputs: seq<Plan>, subqueries: seq<Plan>)

  type Relation = seq<Row>

  /** The tables, their time partitions, and what the other operators do, given the row of the
      query around them, their inputs, and their subqueries as functions of such a row. */
  datatype World = World(tables: string -> Relation, partition: string -> Option<string>,
                         apply: (nat, Row, seq<Relation>, Row -> seq<Relation>) -> Relation)

  /** An operator sees no more of its subqueries than their results. */
  ghost predicate Respects(w: World) {
    forall op: nat, env: Row, inputs: seq<Relation>, f: Row -> seq<Relation>, g: Row -> seq<Relation> ::
      (forall e: Row :: f(e) == g(e)) ==> w.apply(op, env, inputs, f) == w.apply(op, env, inputs, g)
  }

  // --------------------------------------------------------------------------- rewrite

  function FloorMs(t: int): int {
    t / NANOS_PER_MILLI
  }

  predicate Bounded(f: TimeFilter) {
    !f.At? ==> !f.bound.Unbounded?
  }

  /** `binary_expr`: the filter as a comparison with a literal in whole milliseconds. */
  function BinaryExpr(f: TimeFilter, column: string): Expr
    requires Bounded(f)
  {
    var (op, time) := match f
      case Low(Excluded(t)) => (Gt, t)
      case Low(Included(t)) => (GtEq, t)
      case High(Excluded(t)) => (Lt, t)
      case High(Included(t)) => (LtEq, t)
      case At(t) => (Eq, t);
    Binary(Column(column), op, Literal(Millis(Some(FloorMs(time)))), _ => false)
  }

  function TimeOf(f: TimeFilter): int
    requires Bounded(f)
  {
    if f.At? then f.time else f.bound.time
  }

  /** A time filter written as an expression is read back as itself exactly when its instant is
      a whole millisecond. */
  lemma RoundTripExact(f: TimeFilter, column: string, timePartition: Option<string>, parse: string -> Option<int>)
    requires Bounded(f)
    ensures FromExpr(BinaryExpr(f, column), timePartition, parse) == Some(f) <==> TimeOf(f) % NANOS_PER_MILLI == 0
  { }

  predicate HasOwnTimeFilter(filters: seq<Expr>, timePartition: Option<string>) {
    exists k | 0 <= k < |filters| ::
      && filters[k].Binary? && filters[k].left.Column?
      && (filters[k].left.name == DEFAULT_TIMESTAMP_KEY || filters[k].left.name == TimeColumn(timePartition))
  }

  function RangeExprs(column: string, start: int, end: int): seq<Expr> {
    [BinaryExpr(Low(Included(start)), column), BinaryExpr(High(Excluded(end)), column)]
  }

  function Transform(p: Plan, w: World, start: int, end: int): Plan {
    match p
    case Scan(table, filters) =>
      if HasOwnTimeFilter(filters, w.partition(table)) then p
      else Restrict(RangeExprs(TimeColumn(w.partition(table)), start, end), p)
    case Restrict(conjuncts, input) => Restrict(conjuncts, Transform(input, w, start, end))
    case Node(op, inputs, subqueries) =>
      Node(op, seq(|inputs|, i requires 0 <= i < |inputs| => Transform(inputs[i], w, start, end)),
           seq(|subqueries|, i requires 0 <= i < |subqueries| => Transform(subqueries[i], w, start, end)))
  }

  // --------------------------------------------------------------------------- meaning

  /** Some filter is a comparison whose left side is the default time column or the table's own. */
  ghost predicate AsksForTime(filters: seq<Expr>, timePartition: Option<string>) {
    exists e | e in filters ::
      e.Binary? && (e.left == Column("p_timestamp") || (timePartition.Some? && e.left == Column(timePartition.value)))
  }

  lemma OwnFilterExact(filters: seq<Expr>, timePartition: Option<string>)
    ensures HasOwnTimeFilter(filters, timePartition) <==> AsksForTime(filters, timePartition)
  {
    if AsksForTime(filters, timePartition) {
      var e :| e in filters && e.Binary?
               && (e.left == Column("p_timestamp") || (timePartition.Some? && e.left == Column(timePartition.value)));
      var k :| 0 <= k < |filters| && filters[k] == e;
    }
  }

  predicate Passes(filters: seq<Expr>, row: Row) {
    forall k | 0 <= k < |filters| :: Holds(filters[k], row)
  }

  /** From `start` on and before `end`, both cut to milliseconds. */
  predicate InWindow(row: Row, column: string, start: int, end: int) {
    column in row && row[column].Int? && FloorMs(start) <= row[column].i < FloorMs(end)
  }

  function Kept(rows: Relation, filters: seq<Expr>): Relation {
    Filter(rows, row => Passes(filters, row))
  }

  function KeptInWindow(rows: Relation, column: string, start: int, end: int): Relation {
    Filter(rows, row => InWindow(row, column, start, end))
  }

  /** A plan's result, inside a query at row `env`.  With a range, each scan that has no time
      filter of its own reads only the rows of the range. */
  ghost function Eval(p: Plan, w: World, env: Row, range: Option<(int, int)>): Relation
    decreases p
  {
    match p
    case Scan(table, filters) =>
      var rows := Kept(w.tables(table), filters);
      if range.None? || AsksForTime(filters, w.partition(table)) then rows
      else KeptInWindow(rows, TimeColumn(w.partition(table)), range.value.0, range.value.1)
    case Restrict(conjuncts, input) => Kept(Eval(input, w, env, range), conjuncts)
    case Node(op, inputs, subqueries) =>
      w.apply(op, env, seq(|inputs|, i requires 0 <= i < |inputs| => Eval(inputs[i], w, env, range)),
              (e: Row) => seq(|subqueries|, i requires 0 <= i < |subqueries| => Eval(subqueries[i], w, e, range)))
  }

  /** Time columns hold timestamps. */
  ghost predicate Timed(w: World) {
    forall table: string, row: Row | row in w.tables(table) ::
      TimeColumn(w.partition(table)) in row ==> row[TimeColumn(w.partition(table))].Int?
  }

  lemma WindowExprs(row: Row, column: string, start: int, end: int)
    requires column in row ==> row[column].Int?
    ensures Passes(RangeExprs(column, start, end), row) <==> InWindow(row, column, start, end)
  {
    var low, high := RangeExprs(column, start, end)[0], RangeExprs(column, start, end)[1];
    assert Denotes(low.right.value) == Some(Int(FloorMs(start))) && Denotes(high.right.value) == Some(Int(FloorMs(end)));
    assert Holds(low, row) <==> column in row && FloorMs(start) <= row[column].i;
    assert Holds(high, row) <==> column in row && row[column].i < FloorMs(end);
  }

  /** A scan that asks for time is left alone.  Any other keeps, of all its rows, those whose time
      lies in the range, cut to milliseconds. */
  lemma ScanExact(table: string, filters: seq<Expr>, w: World, env: Row, start: int, end: int)
    requires Timed(w)
    ensures var p, partition := Scan(table, filters), w.partition(table);
            var column := if partition.Some? then partition.value else "p_timestamp";
            if AsksForTime(filters, partition) then Transform(p, w, start, end) == p
            else
              Eval(Transform(p, w, start, end), w, env, None) ==
              Filter(Eval(p, w, env, None), (row: Row) =>
                column in row && row[column].Int? && start / 1_000_000 <= row[column].i < end / 1_000_000)
  {
    var p, partition := Scan(table, filters), w.partition(table);
    OwnFilterExact(filters, partition);
    var column := if partition.Some? then partition.value else "p_timestamp";
    if !AsksForTime(filters, partition) {
      ScanMeans(table, filters, w, env, start, end);
      FilterSame(Eval(p, w, env, None), row => InWindow(row, column, start, end), (row: Row) =>
        column in row && row[column].Int? && start / 1_000_000 <= row[column].i < end / 1_000_000);
    }
  }

  lemma ScanMeans(table: string, filters: seq<Expr>, w: World, env: Row, start: int, end: int)
    requires Timed(w)
    ensures Eval(Transform(Scan(table, filters), w, start, end), w, env, None) ==
            Eval(Scan(table, filters), w, env, Some((start, end)))
  {
    OwnFilterExact(filters, w.partition(table));
    if !HasOwnTimeFilter(filters, w.partition(table)) {
      var column := TimeColumn(w.partition(table));
      var rows := Kept(w.tables(table), filters);
      var exprs := RangeExprs(column, start, end);
      FilterMembers(w.tables(table), row => Passes(filters, row));
      forall row | row in rows ensures Passes(exprs, row) <==> InWindow(row, column, start, end) {
        WindowExprs(row, column, start, end);
      }
      FilterSame(rows, row => Passes(exprs, row), row => InWindow(row, column, start, end));
      assert Transform(Scan(table, filters), w, start, end) == Restrict(exprs, Scan(table, filters));
    }
  }

  /** The rewritten plan means what the plan means with its scans restricted to the range. */
  lemma {:induction false} TransformMeans(p: Plan, w: World, env: Row, start: int, end: int)
    requires Timed(w) && Respects(w)
    ensures Eval(Transform(p, w, start, end), w, env, None) == Eval(p, w, env, Some((start, end)))
    decreases p
  {
    match p
    case Scan(table, filters) => ScanMeans(table, filters, w, env, start, end);
    case Restrict(_, input) => TransformMeans(input, w, env, start, end);
    case Node(op, inputs, subqueries) =>
      var range := Some((start, end));
      var q := Transform(p, w, start, end);
      forall i | 0 <= i < |inputs| ensures Eval(q.inputs[i], w, env, None) == Eval(inputs[i], w, env, range) {
        TransformMeans(inputs[i], w, env, start, end);
      }
      forall e: Row, i | 0 <= i < |subqueries|
        ensures Eval(q.subqueries[i], w, e, None) == Eval(subqueries[i], w, e, range)
      {
        TransformMeans(subqueries[i], w, e, start, end);
      }
      NodeSame(op, q.inputs, inputs, q.subqueries, subqueries, w, env, None, range);
  }

  /** A node means the same when its inputs and subqueries do. */
  lemma NodeSame(op: nat, inputs: seq<Plan>, inputs': seq<Plan>, subqueries: seq<Plan>, subqueries': seq<Plan>, w: World, env: Row,
                 range: Option<(int, int)>, range': Option<(int, int)>)
    requires Respects(w) && |inputs| == |inputs'| && |subqueries| == |subqueries'|
    requires forall i | 0 <= i < |inputs| :: Eval(inputs[i], w, env, range) == Eval(inputs'[i], w, env, range')
    requires forall e: Row, i | 0 <= i < |subqueries| ::
               Eval(subqueries[i], w, e, range) == Eval(subqueries'[i], w, e, range')
    ensures Eval(Node(op, inputs, subqueries), w, env, range) == Eval(Node(op, inputs', subqueries'), w, env, range')
  {
    var f := (e: Row) => seq(|subqueries|, i requires 0 <= i < |subqueries| => Eval(subqueries[i], w, e, range));
    var g := (e: Row) => seq(|subqueries'|, i requires 0 <= i < |subqueries'| => Eval(subqueries'[i], w, e, range'));
    var xs := seq(|inputs|, i requires 0 <= i < |inputs| => Eval(inputs[i], w, env, range));
    var ys := seq(|inputs'|, i requires 0 <= i < |inputs'| => Eval(inputs'[i], w, env, range'));
    assert xs == ys;
    forall e: Row ensures f(e) == g(e) { }
    assert w.apply(op, env, xs, f) == w.apply(op, env, ys, g);
  }

  /** Rewriting twice means the same as rewriting once. */
  lemma {:induction false} TransformTwice(p: Plan, w: World, env: Row, start: int, end: int)
    requires Timed(w) && Respects(w)
    ensures var once := Transform(p, w, start, end);
            Eval(Transform(once, w, start, end), w, env, None) == Eval(once, w, env, None)
    decreases p
  {
    var once := Transform(p, w, start, end);
    match p
    case Scan(table, filters) =>
      ScanMeans(table, filters, w, env, start, end);
      if !HasOwnTimeFilter(filters, w.partition(table)) {
        var exprs := RangeExprs(TimeColumn(w.partition(table)), start, end);
        assert once == Restrict(exprs, p);
        KeptTwice(Eval(p, w, env, None), exprs);
      }
    case Restrict(_, input) => TransformTwice(input, w, env, start, end);
    case Node(op, inputs, subqueries) =>
      var twice := Transform(once, w, start, end);
      forall i | 0 <= i < |inputs| ensures Eval(twice.inputs[i], w, env, None) == Eval(once.inputs[i], w, env, None) {
        TransformTwice(inputs[i], w, env, start, end);
      }
      forall e: Row, i | 0 <= i < |subqueries|
        ensures Eval(twice.subqueries[i], w, e, None) == Eval(once.subqueries[i], w, e, None)
      {
        TransformTwice(subqueries[i], w, e, start, end);
      }
      NodeSame(op, twice.inputs, once.inputs, twice.subqueries, once.subqueries, w, env, None, None);
  }

  lemma KeptTwice(rows: Relation, filters: seq<Expr>)
    ensures Kept(Kept(rows, filters), filters) == Kept(rows, filters)
  {
    FilterMembers(rows, row => Passes(filters, row));
    FilterAll(Kept(rows, filters), row => Passes(filters, row));
  }

  function CeilMs(t: int): int {
    -((-t) / NANOS_PER_MILLI)
  }

  /** The milliseconds the window holds are those whose instants lie in the range exactly when
      both ends are whole milliseconds, or no millisecond is in either. */
  lemma WindowExact(start: int, end: int)
    ensures (forall ms: int :: FloorMs(start) <= ms < FloorMs(end) <==> start <= ms * NANOS_PER_MILLI < end)
            <==>
            (start % NANOS_PER_MILLI == 0 && end % NANOS_PER_MILLI == 0)
            || (FloorMs(start) >= FloorMs(end) && CeilMs(start) >= CeilMs(end))
  {
    var fs, fe, cs, ce := FloorMs(start), FloorMs(end), CeilMs(start), CeilMs(end);
    forall ms: int ensures start <= ms * NANOS_PER_MILLI < end <==> cs <= ms < ce {
    }
    hide FloorMs; hide CeilMs;
    var agree := forall ms: int :: fs <= ms < fe <==> start <= ms * NANOS_PER_MILLI < end;
    if agree {
      assert fs <= fs < fe <==> start <= fs * NANOS_PER_MILLI < end;
      assert fs <= cs < fe <==> start <= cs * NANOS_PER_MILLI < end;
      assert fs <= ce - 1 < fe <==> start <= (ce - 1) * NANOS_PER_MILLI < end;
      assert fs <= fe - 1 < fe <==> start <= (fe - 1) * NANOS_PER_MILLI < end;
    }
  }

}
