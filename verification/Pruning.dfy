/** Column statistics and what they allow a scan to skip: the statistics of a parquet file
    are the hull of those of its row groups, and a file whose hull rules a filter out holds
    no row that passes it. */
module Pruning {
  import opened Values

  datatype RawStatistics = Statistics(min: Value, max: Value)

  type TypedStatistics = s: RawStatistics | SameKind(s.min, s.max) witness Statistics(Int(0), Int(0))

  function Least(x: Value, y: Value): Value {
    if Le(x, y) then x else y
  }

  function Greatest(x: Value, y: Value): Value {
    if Le(x, y) then y else x
  }

  predicate Within(s: TypedStatistics, v: Value) {
    Le(s.min, v) && Le(v, s.max)
  }

  /** `TypedStatistics::update`; the source panics on statistics of different kinds. */
  function Update(s: TypedStatistics, other: TypedStatistics): (r: TypedStatistics)
    requires SameKind(s.min, other.min)
    ensures forall v :: Within(s, v) || Within(other, v) ==> Within(r, v)
    ensures r.min in {s.min, other.min} && r.max in {s.max, other.max}
  {
    var r := Statistics(Least(s.min, other.min), Greatest(s.max, other.max));
    assert forall v :: Within(s, v) || Within(other, v) ==> Within(r, v) by {
      forall v | Within(s, v) || Within(other, v) ensures Within(r, v) {
        UpdateCovers(s, other, v);
      }
    }
    r
  }

  lemma UpdateCovers(s: TypedStatistics, other: TypedStatistics, v: Value)
    requires SameKind(s.min, other.min) && (Within(s, v) || Within(other, v))
    ensures Le(Least(s.min, other.min), v) && Le(v, Greatest(s.max, other.max))
  {
    LeTotal(s.min, other.min);
    LeTotal(s.max, other.max);
    if Within(s, v) {
      if !Le(s.min, other.min) { LeTrans(other.min, s.min, v); }
      if Le(s.max, other.max) { LeTrans(v, s.max, other.max); }
    } else {
      if Le(s.min, other.min) { LeTrans(s.min, other.min, v); }
      if !Le(s.max, other.max) { LeTrans(v, other.max, s.max); }
    }
  }

  // ------------------------------------------------------------------------ hulls

  type Stats = Option<TypedStatistics>

  /** Statistics are widened only where both sides have them. */
  function Joined(s: Stats, other: Stats): Stats {
    if s.Some? && other.Some? && SameKind(s.value.min, other.value.min)
    then Some(Update(s.value, other.value)) else s
  }

  function Hull(stats: seq<Stats>): Stats {
    if stats == [] then None
    else if |stats| == 1 then stats[0]
    else Joined(Hull(stats[..|stats| - 1]), stats[|stats| - 1])
  }

  ghost predicate OneKind(stats: seq<Stats>) {
    forall j, k | 0 <= j < |stats| && 0 <= k < |stats| && stats[j].Some? && stats[k].Some? ::
      SameKind(stats[j].value.min, stats[k].value.min)
  }

  /** A value a chunk with these statistics may hold; without statistics, any value. */
  predicate Possible(s: Stats, v: Value) {
    s.Some? ==> Within(s.value, v)
  }

  lemma {:induction false} HullIsFirstWidened(stats: seq<Stats>)
    requires stats != [] && OneKind(stats)
    ensures Hull(stats).Some? <==> stats[0].Some?
    ensures Hull(stats).Some? ==> SameKind(Hull(stats).value.min, stats[0].value.min)
    ensures Hull(stats).Some? ==>
              forall k, v | 0 <= k < |stats| && stats[k].Some? && Within(stats[k].value, v) :: Within(Hull(stats).value, v)
  {
    var last := |stats| - 1;
    if last > 0 {
      HullIsFirstWidened(stats[..last]);
      assert stats[..last][0] == stats[0];
      if stats[0].Some? {
        forall k, v | 0 <= k < |stats| && stats[k].Some? && Within(stats[k].value, v)
          ensures Within(Hull(stats).value, v)
        {
          if k < last { assert stats[..last][k] == stats[k]; }
        }
      }
    }
  }

  /** The bounds of a hull are bounds of its members, so it is no wider than it has to be. */
  lemma {:induction false} HullIsTight(stats: seq<Stats>)
    requires Hull(stats).Some?
    ensures exists k | 0 <= k < |stats| :: stats[k].Some? && stats[k].value.min == Hull(stats).value.min
    ensures exists k | 0 <= k < |stats| :: stats[k].Some? && stats[k].value.max == Hull(stats).value.max
  {
    var last := |stats| - 1;
    if last == 0 {
      assert stats[0].Some?;
    } else {
      var rest := stats[..last];
      HullIsTight(rest);
      var i :| 0 <= i < last && rest[i].Some? && rest[i].value.min == Hull(rest).value.min;
      var j :| 0 <= j < last && rest[j].Some? && rest[j].value.max == Hull(rest).value.max;
      assert stats[i] == rest[i] && stats[j] == rest[j] && stats[last] == stats[last];
    }
  }

  lemma {:induction false} StrBeyond(s: string)
    ensures !StrLe(s + "a", s)
  {
    if s != [] {
      assert (s + "a")[1..] == s[1..] + "a";
      StrBeyond(s[1..]);
    }
  }

  /** The bounds hold whatever values of the column's kind chunks with these statistics may hold. */
  ghost predicate Encloses(bounds: Stats, stats: seq<Stats>) {
    forall k, v | 0 <= k < |stats| && Possible(stats[k], v) && OfKind(stats, v) :: Possible(bounds, v)
  }

  /** The kind of a column shows in its first statistics. */
  predicate OfKind(stats: seq<Stats>, v: Value) {
    stats != [] && stats[0].Some? ==> SameKind(v, stats[0].value.min)
  }

  /** The bounds leave out no value of their kind: only booleans have such bounds. */
  predicate Everything(bounds: Stats) {
    bounds.Some? && bounds.value.min == Bool(false) && bounds.value.max == Bool(true)
  }

  /** A value outside the bounds, if there is one. */
  function Outside(bounds: TypedStatistics): Value {
    match bounds.max
    case Int(i) => Int(i + 1)
    case Float(r) => Float(r + 1.0)
    case Str(s) => Str(s + "a")
    case Bool(b) => Bool(!b)
  }

  lemma OutsideIsOutside(bounds: TypedStatistics)
    ensures SameKind(Outside(bounds), bounds.min)
    ensures Within(bounds, Outside(bounds)) ==> Everything(Some(bounds))
  {
    if bounds.max.Str? { StrBeyond(bounds.max.s); }
  }

  /** The hull covers whatever the chunks may hold exactly when the first chunk has no
      statistics (and then none are claimed), every chunk has them, or the hull leaves nothing
      out: a later chunk without statistics leaves the old bounds in place. */
  lemma HullExact(stats: seq<Stats>)
    requires stats != [] && OneKind(stats)
    ensures Encloses(Hull(stats), stats) <==>
            stats[0].None? || Everything(Hull(stats)) || forall k | 0 <= k < |stats| :: stats[k].Some?
  {
    HullIsFirstWidened(stats);
    if stats[0].Some? {
      var hull := Hull(stats).value;
      OutsideIsOutside(hull);
      if exists k | 0 <= k < |stats| :: stats[k].None? {
        var k :| 0 <= k < |stats| && stats[k].None?;
        assert Possible(stats[k], Outside(hull)) && OfKind(stats, Outside(hull));
      }
    }
  }

  // --------------------------------------------------------------- statistics of a file

  datatype Chunk = Chunk(name: string, stats: Stats, compressed: nat, uncompressed: nat)

  /** A row group: the metadata of its column chunks, and the rows in it. */
  datatype RowGroup = RowGroup(chunks: seq<Chunk>, rows: set<Row>)

  datatype FileColumn = FileColumn(name: string, stats: Stats, uncompressed: nat, compressed: nat)

  /** All chunks of a file, row group by row group. */
  function Chunks(groups: seq<RowGroup>): seq<Chunk> {
    if groups == [] then [] else Chunks(groups[..|groups| - 1]) + groups[|groups| - 1].chunks
  }

  /** The chunks of one column, in file order. */
  function OfColumn(chunks: seq<Chunk>, name: string): seq<Chunk> {
    if chunks == [] then []
    else OfColumn(chunks[..|chunks| - 1], name) +
         if chunks[|chunks| - 1].name == name then [chunks[|chunks| - 1]] else []
  }

  function StatsOf(chunks: seq<Chunk>): (r: seq<Stats>)
    ensures |r| == |chunks| && forall k | 0 <= k < |r| :: r[k] == chunks[k].stats
  {
    seq(|chunks|, k requires 0 <= k < |chunks| => chunks[k].stats)
  }

  function SumCompressed(chunks: seq<Chunk>): nat {
    if chunks == [] then 0 else SumCompressed(chunks[..|chunks| - 1]) + chunks[|chunks| - 1].compressed
  }

  function SumUncompressed(chunks: seq<Chunk>): nat {
    if chunks == [] then 0 else SumUncompressed(chunks[..|chunks| - 1]) + chunks[|chunks| - 1].uncompressed
  }

  /** What a file records of one column. */
  function Summary(name: string, chunks: seq<Chunk>): FileColumn {
    FileColumn(name, Hull(StatsOf(chunks)), SumUncompressed(chunks), SumCompressed(chunks))
  }

  /** A column has one type throughout a file. */
  ghost predicate OneKindEach(chunks: seq<Chunk>) {
    forall j, k | 0 <= j < |chunks| && 0 <= k < |chunks| && chunks[j].name == chunks[k].name
                  && chunks[j].stats.Some? && chunks[k].stats.Some? ::
      SameKind(chunks[j].stats.value.min, chunks[k].stats.value.min)
  }

  ghost predicate Summarises(columns: map<string, FileColumn>, chunks: seq<Chunk>) {
    forall name :: SummarisesAt(columns, chunks, name)
  }

  ghost predicate SummarisesAt(columns: map<string, FileColumn>, chunks: seq<Chunk>, name: string) {
    && (name in columns <==> OfColumn(chunks, name) != [])
    && (name in columns ==> columns[name] == Summary(name, OfColumn(chunks, name)))
  }

  lemma {:induction false} OfColumnMembers(chunks: seq<Chunk>, name: string)
    ensures forall c :: c in OfColumn(chunks, name) <==> c in chunks && c.name == name
    ensures OneKindEach(chunks) ==> OneKind(StatsOf(OfColumn(chunks, name)))
  {
    if chunks != [] {
      var last := |chunks| - 1;
      OfColumnMembers(chunks[..last], name);
      assert chunks == chunks[..last] + [chunks[last]];
    }
    var of := OfColumn(chunks, name);
    if OneKindEach(chunks) {
      forall j, k | 0 <= j < |of| && 0 <= k < |of| && of[j].stats.Some? && of[k].stats.Some?
        ensures SameKind(of[j].stats.value.min, of[k].stats.value.min)
      {
        assert of[j] in of && of[k] in of;
      }
    }
  }

  lemma SummaryExtends(name: string, chunks: seq<Chunk>, c: Chunk)
    ensures chunks == [] ==> Summary(name, chunks + [c]) == FileColumn(name, c.stats, c.uncompressed, c.compressed)
    ensures chunks != [] ==>
              var s := Summary(name, chunks);
              Summary(name, chunks + [c]) ==
              FileColumn(name, Joined(s.stats, c.stats), s.uncompressed + c.uncompressed, s.compressed + c.compressed)
  {
    var more := chunks + [c];
    assert more[..|chunks|] == chunks && more[|chunks|] == c;
    assert more != [] && more[..|more| - 1] == chunks;
    assert SumUncompressed(more) == SumUncompressed(chunks) + c.uncompressed;
    assert SumCompressed(more) == SumCompressed(chunks) + c.compressed;
    assert StatsOf(more)[..|chunks|] == StatsOf(chunks) && StatsOf(more)[|chunks|] == c.stats;
  }

  lemma OfColumnExtends(chunks: seq<Chunk>, c: Chunk)
    ensures OfColumn(chunks + [c], c.name) == OfColumn(chunks, c.name) + [c]
    ensures forall name | name != c.name :: OfColumn(chunks + [c], name) == OfColumn(chunks, name)
  {
    assert (chunks + [c])[..|chunks|] == chunks;
  }

  lemma NothingSeen()
    ensures Summarises(map[], Chunks([]))
  {
  }

  /** The entry the inner loop stores for a chunk. */
  function Entry(columns: map<string, FileColumn>, col: Chunk): FileColumn {
    if col.name in columns then
      var c := columns[col.name];
      FileColumn(c.name, Joined(c.stats, col.stats), c.uncompressed + col.uncompressed, c.compressed + col.compressed)
    else FileColumn(col.name, col.stats, col.uncompressed, col.compressed)
  }

  lemma OneChunkMoreAt(columns: map<string, FileColumn>, seen: seq<Chunk>, col: Chunk, name: string)
    requires SummarisesAt(columns, seen, name)
    ensures SummarisesAt(columns[col.name := Entry(columns, col)], seen + [col], name)
  {
    OfColumnExtends(seen, col);
    if name == col.name {
      SummaryExtends(name, OfColumn(seen, name), col);
      assert Entry(columns, col) == Summary(name, OfColumn(seen, name) + [col]);
    } else {
      assert OfColumn(seen + [col], name) == OfColumn(seen, name);
    }
  }

  lemma OneChunkMore(columns: map<string, FileColumn>, seen: seq<Chunk>, col: Chunk)
    requires Summarises(columns, seen)
    ensures Summarises(columns[col.name := Entry(columns, col)], seen + [col])
  {
    hide Summary; hide OfColumn; hide Entry;
    var after, more := columns[col.name := Entry(columns, col)], seen + [col];
    forall name ensures SummarisesAt(after, more, name) {
      assert SummarisesAt(columns, seen, name);
      OneChunkMoreAt(columns, seen, col, name);
    }
  }

  /** `column_statistics`: the columns of a file with their hulls and sizes. */
  method ColumnStatistics(groups: seq<RowGroup>) returns (columns: map<string, FileColumn>)
    requires OneKindEach(Chunks(groups))
    ensures Summarises(columns, Chunks(groups))
  {
    hide Summarises;
    columns := map[];
    NothingSeen();
    for g := 0 to |groups|
      invariant Summarises(columns, Chunks(groups[..g]))
    {
      assert Chunks(groups[..g + 1]) == Chunks(groups[..g]) + groups[g].chunks by {
        assert groups[..g + 1][..g] == groups[..g];
      }
      var chunks := groups[g].chunks;
      ghost var before := Chunks(groups[..g]);
      assert chunks[..0] == [] && before + [] == before;
      for k := 0 to |chunks|
        invariant Summarises(columns, before + chunks[..k])
      {
        var col := chunks[k];
        ghost var was := columns;
        if col.name in columns {
          var entry := columns[col.name];
          var stats := entry.stats;
          if stats.Some? && col.stats.Some? && SameKind(stats.value.min, col.stats.value.min) {
            stats := Some(Update(stats.value, col.stats.value));
          }
          columns := columns[col.name := FileColumn(entry.name, stats, entry.uncompressed + col.uncompressed, entry.compressed + col.compressed)];
        } else {
          columns := columns[col.name := FileColumn(col.name, col.stats, col.uncompressed, col.compressed)];
        }
        OneChunkMore(was, before + chunks[..k], col);
        assert before + chunks[..k] + [chunks[k]] == before + chunks[..k + 1];
      }
      assert chunks[..|chunks|] == chunks;
    }
    assert groups[..|groups|] == groups;
  }

  // ---------------------------------------------------------------- rows and their file

  /** What the parquet format guarantees of a row group: every column of a row has a chunk,
      and chunk statistics bound the values. */
  ghost predicate GroupSound(g: RowGroup) {
    forall row, name | row in g.rows && name in row ::
      && (exists c | c in g.chunks :: c.name == name)
      && forall c | c in g.chunks && c.name == name :: Possible(c.stats, row[name])
  }

  /** Whatever a file claims of its columns is true of the row. */
  ghost predicate Covers(columns: seq<FileColumn>, row: Row) {
    forall c | c in columns && c.name in row :: Possible(c.stats, row[c.name])
  }

  /** Every row group carries statistics for the columns that have any. */
  ghost predicate StatisticsThroughout(groups: seq<RowGroup>) {
    forall c, d | c in Chunks(groups) && d in Chunks(groups) && c.name == d.name :: c.stats.Some? <==> d.stats.Some?
  }

  lemma {:induction false} ChunkOfGroup(groups: seq<RowGroup>, g: RowGroup, c: Chunk)
    requires g in groups && c in g.chunks
    ensures c in Chunks(groups)
  {
    var last := |groups| - 1;
    if g != groups[last] {
      assert groups == groups[..last] + [groups[last]];
      ChunkOfGroup(groups[..last], g, c);
    }
  }

  /** A file's statistics cover every row of every row group. */
  lemma FileCoversRows(groups: seq<RowGroup>, columns: map<string, FileColumn>, row: Row, g: RowGroup)
    requires OneKindEach(Chunks(groups)) && Summarises(columns, Chunks(groups))
    requires StatisticsThroughout(groups)
    requires g in groups && GroupSound(g) && row in g.rows
    ensures forall name | name in columns && name in row :: Possible(columns[name].stats, row[name])
  {
    forall name | name in columns && name in row ensures Possible(columns[name].stats, row[name]) {
      var of := OfColumn(Chunks(groups), name);
      assert SummarisesAt(columns, Chunks(groups), name);
      OfColumnMembers(Chunks(groups), name);
      HullIsFirstWidened(StatsOf(of));
      var c :| c in g.chunks && c.name == name;
      ChunkOfGroup(groups, g, c);
      assert of[0] in of && c in of;
      var k :| 0 <= k < |of| && of[k] == c;
    }
  }

  // ------------------------------------------------------------------------- pruning

  const I64_LIMIT: int := 0x8000_0000_0000_0000

  /** A cast of an unsigned 64-bit integer to a signed one. */
  function ToI64(n: nat): int {
    var m := n % (2 * I64_LIMIT);
    if m < I64_LIMIT then m else m - 2 * I64_LIMIT
  }

  function CastOrNone(s: Scalar): Option<Value> {
    match s
    case Boolean(Some(b)) => Some(Bool(b))
    case Floating(Some(r)) => Some(Float(r))
    case Signed(Some(i)) => Some(Int(i))
    case Unsigned(Some(n)) => Some(Int(ToI64(n)))
    case Utf8(Some(t)) => Some(Str(t))
    case Millis(Some(t)) => Some(Int(t))
    case _ => None
  }

  function SatisfyConstraints(value: Value, op: Op, stats: TypedStatistics): Option<bool> {
    if !SameKind(value, stats.min) then None
    else match op
      case Eq => Some(Le(stats.min, value) && Le(value, stats.max))
      case NotDistinct => Some(Le(stats.min, value) && Le(value, stats.max))
      case Lt => Some(!Le(value, stats.min))
      case LtEq => Some(Le(stats.min, value))
      case Gt => Some(!Le(stats.max, value))
      case GtEq => Some(Le(value, stats.max))
      case OtherOp => None
  }

  /** The constraint check is as sharp as the statistics allow: it rejects a filter exactly
      when no value between the bounds passes it. */
  lemma ConstraintsExact(value: Value, op: Op, stats: TypedStatistics)
    requires SameKind(value, stats.min) && !op.OtherOp? && Le(stats.min, stats.max)
    ensures SatisfyConstraints(value, op, stats) == Some(exists x :: Within(stats, x) && Compares(op, x, value))
  {
    LeTotal(stats.min, stats.min);
    LeTotal(stats.max, stats.max);
    LeTotal(value, stats.min);
    LeTotal(value, stats.max);
    if x :| Within(stats, x) && Compares(op, x, value) {
      if op.Lt? && Le(value, stats.min) { LeTrans(value, stats.min, x); }
      if op.LtEq? { LeTrans(stats.min, x, value); }
      if op.Gt? && Le(stats.max, value) { LeTrans(x, stats.max, value); }
      if op.GtEq? { LeTrans(value, x, stats.max); }
    }
    if SatisfyConstraints(value, op, stats).value {
      var x := match op
        case Eq => value
        case NotDistinct => value
        case Lt => stats.min
        case LtEq => stats.min
        case _ => stats.max;
      assert Within(stats, x) && Compares(op, x, value);
    }
  }

  function FindColumn(columns: seq<FileColumn>, name: string): (r: Option<FileColumn>)
    ensures r.Some? ==> r.value in columns && r.value.name == name
    ensures r.None? ==> forall c | c in columns :: c.name != name
  {
    if columns == [] then None
    else if columns[0].name == name then Some(columns[0])
    else FindColumn(columns[1..], name)
  }

  /** `can_be_pruned`: the file can be skipped for this filter. */
  predicate CanBePruned(columns: seq<FileColumn>, e: Expr) {
    && e.Binary? && e.left.Column? && e.right.Literal?
    && var col := FindColumn(columns, e.left.name);
    && var value := CastOrNone(e.right.value);
    && col.Some? && value.Some? && col.value.stats.Some?
    && SatisfyConstraints(value.value, e.op, col.value.stats.value) == Some(false)
  }

  /** The literal survives the cast to a signed integer. */
  predicate InRange(e: Expr) {
    (e.Binary? && e.right.Literal? && e.right.value.Unsigned? && e.right.value.natural.Some?)
    ==> e.right.value.natural.value < I64_LIMIT
  }

  /** No value between the bounds of the column the filter compares passes it. */
  ghost predicate RulesOut(columns: seq<FileColumn>, k: nat, e: Expr) {
    && k < |columns| && e.Binary? && e.right.Literal? && e.left == Column(columns[k].name)
    && (forall j | 0 <= j < k :: columns[j].name != columns[k].name)
    && !e.op.OtherOp? && Denotes(e.right.value).Some? && columns[k].stats.Some?
    && SameKind(Denotes(e.right.value).value, columns[k].stats.value.min)
    && forall x | Within(columns[k].stats.value, x) :: !Compares(e.op, x, Denotes(e.right.value).value)
  }

  lemma {:induction false} FindsFirst(columns: seq<FileColumn>, name: string)
    ensures var col := FindColumn(columns, name);
            col.Some? ==> exists k: nat | k < |columns| :: columns[k] == col.value && forall j | 0 <= j < k :: columns[j].name != name
    ensures forall k: nat | k < |columns| && columns[k].name == name && (forall j | 0 <= j < k :: columns[j].name != name) ::
              FindColumn(columns, name) == Some(columns[k])
  {
    if columns != [] && columns[0].name != name {
      var rest := columns[1..];
      FindsFirst(rest, name);
      assert forall k | 1 <= k < |columns| :: columns[k] == rest[k - 1];
      if FindColumn(rest, name).Some? {
        var k: nat :| k < |rest| && rest[k] == FindColumn(rest, name).value && forall j | 0 <= j < k :: rest[j].name != name;
        assert columns[k + 1] == rest[k];
      }
      forall k: nat | k < |columns| && columns[k].name == name && (forall j | 0 <= j < k :: columns[j].name != name)
        ensures FindColumn(columns, name) == Some(columns[k])
      {
        assert rest[k - 1] == columns[k] && forall j | 0 <= j < k - 1 :: rest[j].name == columns[j + 1].name;
      }
    }
  }

  /** A file is skipped for a filter exactly when the bounds of the column it compares leave no
      value that passes. */
  lemma CanBePrunedExact(columns: seq<FileColumn>, e: Expr)
    requires InRange(e) && forall c | c in columns && c.stats.Some? :: Le(c.stats.value.min, c.stats.value.max)
    ensures CanBePruned(columns, e) <==> exists k: nat :: RulesOut(columns, k, e)
  {
    if e.Binary? && e.left.Column? && e.right.Literal? {
      FindsFirst(columns, e.left.name);
      assert CastOrNone(e.right.value) == Denotes(e.right.value);
      var col := FindColumn(columns, e.left.name);
      hide FindColumn;
      if col.Some? && col.value.stats.Some? && Denotes(e.right.value).Some? {
        OneColumnExact(columns, col.value, e);
        hide SatisfyConstraints; hide Within; hide Compares;
        var k: nat :| k < |columns| && columns[k] == col.value && forall j | 0 <= j < k :: columns[j].name != e.left.name;
        assert CanBePruned(columns, e) <==> RulesOut(columns, k, e);
      }
      if k: nat :| RulesOut(columns, k, e) { assert col == Some(columns[k]); }
    }
  }

  lemma OneColumnExact(columns: seq<FileColumn>, c: FileColumn, e: Expr)
    requires e.Binary? && e.right.Literal? && Denotes(e.right.value).Some? && c.stats.Some?
    requires Le(c.stats.value.min, c.stats.value.max)
    ensures var value, stats := Denotes(e.right.value).value, c.stats.value;
            SatisfyConstraints(value, e.op, stats) == Some(false) <==>
            SameKind(value, stats.min) && !e.op.OtherOp? && forall x | Within(stats, x) :: !Compares(e.op, x, value)
  {
    var value, stats := Denotes(e.right.value).value, c.stats.value;
    if SameKind(value, stats.min) && !e.op.OtherOp? { ConstraintsExact(value, e.op, stats); }
    hide Compares; hide Within; hide Le;
  }

  /** A file that is skipped for a filter holds no row that passes it. */
  lemma PruningSound(columns: seq<FileColumn>, e: Expr, row: Row)
    requires CanBePruned(columns, e) && Covers(columns, row) && InRange(e)
    ensures !Holds(e, row)
  {
    var col := FindColumn(columns, e.left.name).value;
    var value := CastOrNone(e.right.value).value;
    assert Denotes(e.right.value) == Some(value);
    if e.left.name in row {
      var x := row[e.left.name];
      assert Within(col.stats.value, x);
      LeTrans(col.stats.value.min, x, col.stats.value.max);
      if Compares(e.op, x, value) {
        ConstraintsExact(value, e.op, col.stats.value);
      }
    }
  }

  /** An unsigned literal is safe to prune by exactly when it is below 2^63. */
  lemma UnsignedLiteralExact(n: nat)
    requires n < 2 * I64_LIMIT
    ensures (forall columns, op, engine, row |
               CanBePruned(columns, Binary(Column("c"), op, Literal(Unsigned(Some(n))), engine)) && Covers(columns, row) ::
               !Holds(Binary(Column("c"), op, Literal(Unsigned(Some(n))), engine), row))
            <==> n < I64_LIMIT
  {
    if n < I64_LIMIT {
      forall columns, op, engine, row |
        CanBePruned(columns, Binary(Column("c"), op, Literal(Unsigned(Some(n))), engine)) && Covers(columns, row)
        ensures !Holds(Binary(Column("c"), op, Literal(Unsigned(Some(n))), engine), row)
      {
        PruningSound(columns, Binary(Column("c"), op, Literal(Unsigned(Some(n))), engine), row);
      }
    } else {
      var columns := [FileColumn("c", Some(Statistics(Int(0), Int(0))), 0, 0)];
      var engine: Row -> bool := _ => false;
      var e := Binary(Column("c"), Lt, Literal(Unsigned(Some(n))), engine);
      var row: Row := map["c" := Int(0)];
      assert ToI64(n) == n - 2 * I64_LIMIT;
      assert FindColumn(columns, "c") == Some(columns[0]);
      assert CanBePruned(columns, e) && Covers(columns, row) && Holds(e, row);
    }
  }
}
