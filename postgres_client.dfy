/**
 * The Supabase-style query builder over PostgreSQL (`lib/db/postgres-client.ts`):
 * filters are recorded as SQL fragments whose `$n` placeholders are numbered
 * by a counter as they are added, and `buildQuery` assembles the statement of
 * the chosen operation together with the list of values that node-postgres
 * binds to `$1, $2, …` in that order. The pool, the query call itself and the
 * error conversion are I/O and are not modelled; rows are JSON objects given
 * as property lists in `Object.keys` order.
 */
module PostgresClient {
  import opened Wrappers
  import opened Text
  import opened JsValues

  datatype Operation = Select | Insert | Update | Upsert | Delete

  /** One recorded filter: its SQL fragment and the values of its placeholders. */
  datatype Condition = Condition(sql: string, values: seq<JsValue>)

  /** A row to write: the properties of the object, in key order. */
  type Row = seq<(string, JsValue)>

  /** A statement and the values of its placeholders. */
  datatype Query = Query(sql: string, values: seq<JsValue>)

  /** The comparison filters that take one value: `eq` … `ilike`, `contains`, `containedBy`. */
  datatype CompareOp = Eq | Neq | Gt | Gte | Lt | Lte | Like | ILike | JsonContains | JsonContainedBy

  function OpText(op: CompareOp): string {
    match op
    case Eq => "="
    case Neq => "!="
    case Gt => ">"
    case Gte => ">="
    case Lt => "<"
    case Lte => "<="
    case Like => "LIKE"
    case ILike => "ILIKE"
    case JsonContains => "@>"
    case JsonContainedBy => "<@"
  }

  // ---------------------------------------------------------------- placeholders

  /** The text `nextParam` issues for counter value `n`. */
  function Placeholder(n: nat): string {
    "$" + NatToString(n)
  }

  /** Different counter values give different placeholders. */
  lemma PlaceholderInjective(a: nat, b: nat)
    ensures Placeholder(a) == Placeholder(b) <==> a == b
  {
    if Placeholder(a) == Placeholder(b) {
      assert NatToString(a) == Placeholder(a)[1..];
      assert NatToString(b) == Placeholder(b)[1..];
      NatToStringValue(a);
      NatToStringValue(b);
    }
  }

  /** `count` placeholders numbered from `start`. */
  function Placeholders(start: nat, count: nat): (ps: seq<string>)
    ensures |ps| == count
    ensures forall i :: 0 <= i < count ==> ps[i] == Placeholder(start + i)
  {
    seq(count, i requires 0 <= i < count => Placeholder(start + i))
  }

  /** The placeholder bound to `$n` carries `v`: node-postgres binds `$n` to the n-th value. */
  predicate Bound(values: seq<JsValue>, n: nat, v: JsValue) {
    1 <= n <= |values| && values[n - 1] == v
  }

  /** `"${name}"`. */
  function Quote(name: string): string {
    "\"" + name + "\""
  }

  /** `names.map(c => `"${c}"`)`. */
  function QuoteAll(names: seq<string>): (r: seq<string>)
    ensures |r| == |names|
    ensures forall i :: 0 <= i < |names| ==> r[i] == Quote(names[i])
  {
    seq(|names|, i requires 0 <= i < |names| => Quote(names[i]))
  }

  // ---------------------------------------------------------------- conditions

  /** The values of the conditions, in condition order (`allValues.push(...cond.values)`). */
  function Values(cs: seq<Condition>): seq<JsValue> {
    if cs == [] then [] else Values(cs[..|cs| - 1]) + cs[|cs| - 1].values
  }

  /** The fragments of the conditions, in order. */
  function Sqls(cs: seq<Condition>): (r: seq<string>)
    ensures |r| == |cs|
    ensures forall k :: 0 <= k < |cs| ==> r[k] == cs[k].sql
  {
    seq(|cs|, k requires 0 <= k < |cs| => cs[k].sql)
  }

  lemma ValuesAppend(cs: seq<Condition>, c: Condition)
    ensures Values(cs + [c]) == Values(cs) + c.values
  {
    assert (cs + [c])[..|cs|] == cs;
  }

  /**
   * The `j`-th value of condition `k` sits in the list after the values of
   * the conditions before it.
   */
  lemma {:induction false} ValuesAt(cs: seq<Condition>, k: nat, j: nat)
    requires k < |cs| && j < |cs[k].values|
    ensures |Values(cs[..k])| + j < |Values(cs)|
    ensures Values(cs)[|Values(cs[..k])| + j] == cs[k].values[j]
  {
    var init := cs[..|cs| - 1];
    if k == |cs| - 1 {
      assert cs[..k] == init;
    } else {
      ValuesAt(init, k, j);
      assert init[..k] == cs[..k];
      assert init[k] == cs[k];
    }
  }

  lemma {:induction false} ValuesPrefixLength(cs: seq<Condition>, k: nat)
    requires k <= |cs|
    ensures |Values(cs[..k])| <= |Values(cs)|
  {
    if k < |cs| {
      var init := cs[..|cs| - 1];
      ValuesPrefixLength(init, k);
      assert init[..k] == cs[..k];
    } else {
      assert cs[..k] == cs;
    }
  }

  /**
   * How the counter numbered the placeholders: condition `k` took the numbers
   * from `starts[k]` on, one per value, and the counter is one past the last.
   */
  predicate Numbered(cs: seq<Condition>, starts: seq<nat>, counter: nat) {
    |starts| == |cs|
    && counter == 1 + |Values(cs)|
    && forall k :: 0 <= k < |cs| ==> starts[k] == 1 + |Values(cs[..k])|
  }

  /** A condition added at the current counter keeps the numbering. */
  lemma NumberedAppend(cs: seq<Condition>, starts: seq<nat>, counter: nat, c: Condition)
    requires Numbered(cs, starts, counter)
    ensures Numbered(cs + [c], starts + [counter], counter + |c.values|)
  {
    ValuesAppend(cs, c);
    var cs' := cs + [c];
    forall k | 0 <= k < |cs'|
      ensures (starts + [counter])[k] == 1 + |Values(cs'[..k])|
    {
      if k < |cs| {
        assert cs'[..k] == cs[..k];
      } else {
        assert cs'[..k] == cs;
      }
    }
  }

  /**
   * With the conditions numbered by the counter and their values sent in
   * condition order, every placeholder of every condition is bound to the
   * value the condition was given for it.
   */
  lemma ConditionsBind(cs: seq<Condition>, starts: seq<nat>, counter: nat, k: nat, j: nat)
    requires Numbered(cs, starts, counter)
    requires k < |cs| && j < |cs[k].values|
    ensures Bound(Values(cs), starts[k] + j, cs[k].values[j])
  {
    ValuesAt(cs, k, j);
  }

  /** ` WHERE c1 AND c2 …`, or nothing without conditions. */
  function Where(cs: seq<Condition>): string {
    if cs == [] then "" else " WHERE " + Join(Sqls(cs), " AND ")
  }

  // ---------------------------------------------------------------- select

  /** `parseSelectColumns`'s handling of one comma-separated piece of a select with joins. */
  function BaseColumn(piece: string): string {
    Trim(Split(Split(Trim(piece), ":")[0], "(")[0])
  }

  function BaseColumns(pieces: seq<string>): (r: seq<string>)
    ensures |r| == |pieces|
    ensures forall i :: 0 <= i < |pieces| ==> r[i] == BaseColumn(pieces[i])
  {
    seq(|pieces|, i requires 0 <= i < |pieces| => BaseColumn(pieces[i]))
  }

  function TrimAll(pieces: seq<string>): (r: seq<string>)
    ensures |r| == |pieces|
    ensures forall i :: 0 <= i < |pieces| ==> r[i] == Trim(pieces[i])
  {
    seq(|pieces|, i requires 0 <= i < |pieces| => Trim(pieces[i]))
  }

  /**
   * `parseSelectColumns`: a list with joins keeps the base name of each piece
   * (before `:` and `(`); `*` stays as it is; otherwise every piece is trimmed
   * and quoted.
   */
  function ParseSelectColumns(columns: string): string {
    if Contains(columns, "(") then Join(QuoteAll(BaseColumns(Split(columns, ","))), ", ")
    else if columns == "*" then "*"
    else Join(QuoteAll(TrimAll(Split(columns, ","))), ", ")
  }

  /** `'*'` is passed through, and a plain list is cut at its commas, each column being quoted. */
  lemma SelectColumnsShape(columns: string)
    ensures ParseSelectColumns("*") == "*"
    ensures !Contains(columns, "(") && columns != "*" ==>
              ParseSelectColumns(columns) == Join(QuoteAll(TrimAll(Split(columns, ","))), ", ")
  {
    assert "*"[0..1] == "*";
    assert !Contains("*", "(");
  }

  /** A single column without joins is trimmed and quoted. */
  lemma SingleColumnQuoted(column: string)
    requires forall k :: 0 <= k < |column| ==> column[k] != ',' && column[k] != '('
    requires column != "*"
    ensures ParseSelectColumns(column) == Quote(Trim(column))
  {
    forall j ensures !OccursAt(column, "(", j) && !OccursAt(column, ",", j) {
      if 0 <= j < |column| {
        assert column[j..j + 1] == [column[j]];
      }
    }
    assert !Contains(column, "(");
    assert IndexOf(column, ",", 0) == -1;
    assert Split(column, ",") == [column];
  }

  /** ` LIMIT n`, when a limit is set. */
  function LimitClause(limit: Option<int>): string {
    if limit.Some? then " LIMIT " + IntToString(limit.value) else ""
  }

  /** ` LIMIT to-from+1 OFFSET from`, when both ends of a range are set. */
  function RangeClause(rangeFrom: Option<int>, rangeTo: Option<int>): string {
    if rangeFrom.Some? && rangeTo.Some?
    then " LIMIT " + IntToString(rangeTo.value - rangeFrom.value + 1) + " OFFSET " + IntToString(rangeFrom.value)
    else ""
  }

  /** The `select` statement. */
  function SelectSql(table: string, columns: string, countExact: bool, cs: seq<Condition>, orderBy: seq<string>,
                     limit: Option<int>, rangeFrom: Option<int>, rangeTo: Option<int>): string {
    var sql := "SELECT " + ParseSelectColumns(columns) + " FROM " + Quote(table) + Where(cs)
               + (if orderBy == [] then "" else " ORDER BY " + Join(orderBy, ", "))
               + LimitClause(limit) + RangeClause(rangeFrom, rangeTo);
    if countExact then "SELECT COUNT(*) OVER() as full_count, * FROM (" + sql + ") AS subquery" else sql
  }

  // ---------------------------------------------------------------- insert and upsert

  /** `Object.keys(row)`. */
  function Keys(row: Row): (ks: seq<string>)
    ensures |ks| == |row|
    ensures forall i :: 0 <= i < |row| ==> ks[i] == row[i].0
  {
    seq(|row|, i requires 0 <= i < |row| => row[i].0)
  }

  /** One row's values for the columns, in column order (`row[col]`, `undefined` when absent). */
  function RowValues(row: Row, cols: seq<string>): (vs: seq<JsValue>)
    ensures |vs| == |cols|
    ensures forall c :: 0 <= c < |cols| ==> vs[c] == Lookup(row, cols[c])
  {
    seq(|cols|, c requires 0 <= c < |cols| => Lookup(row, cols[c]))
  }

  /** The values of all rows, row after row. */
  function RowMajor(rows: seq<Row>, cols: seq<string>): seq<JsValue> {
    if rows == [] then [] else RowMajor(rows[..|rows| - 1], cols) + RowValues(rows[|rows| - 1], cols)
  }

  /** `(` placeholders `)` for one row of `width` columns. */
  function Tuple(start: nat, width: nat): string {
    "(" + Join(Placeholders(start, width), ", ") + ")"
  }

  /** The tuples of `count` rows, numbered on from `start`. */
  function Tuples(start: nat, count: nat, width: nat): (ts: seq<string>)
    ensures |ts| == count
    ensures forall r :: 0 <= r < count ==> ts[r] == Tuple(start + r * width, width)
  {
    seq(count, r requires 0 <= r < count => Tuple(start + r * width, width))
  }

  lemma {:induction false} RowMajorAt(rows: seq<Row>, cols: seq<string>, r: nat, c: nat)
    requires r < |rows| && c < |cols|
    ensures |RowMajor(rows, cols)| == |rows| * |cols|
    ensures r * |cols| + c < |RowMajor(rows, cols)|
    ensures RowMajor(rows, cols)[r * |cols| + c] == Lookup(rows[r], cols[c])
  {
    var init := rows[..|rows| - 1];
    var w := |cols|;
    if r == |rows| - 1 {
      RowMajorLength(init, cols);
      assert |init| * w == r * w;
    } else {
      RowMajorAt(init, cols, r, c);
      assert init[r] == rows[r];
      assert (|init| + 1) * w == |init| * w + w;
    }
  }

  lemma {:induction false} RowMajorLength(rows: seq<Row>, cols: seq<string>)
    ensures |RowMajor(rows, cols)| == |rows| * |cols|
  {
    if rows != [] {
      var init := rows[..|rows| - 1];
      RowMajorLength(init, cols);
      assert (|init| + 1) * |cols| == |init| * |cols| + |cols|;
    }
  }

  /**
   * Rows written from placeholder `$start` on, with their values sent row after
   * row: the placeholder of row `r`, column `c` is bound to that row's value for
   * that column exactly when numbering starts at `$1`.
   */
  lemma RowsBind(rows: seq<Row>, cols: seq<string>, r: nat, c: nat)
    requires r < |rows| && c < |cols|
    ensures Tuples(1, |rows|, |cols|)[r] == Tuple(1 + r * |cols|, |cols|)
    ensures Placeholders(1 + r * |cols|, |cols|)[c] == Placeholder(1 + r * |cols| + c)
    ensures Bound(RowMajor(rows, cols), 1 + r * |cols| + c, Lookup(rows[r], cols[c]))
  {
    MulNonNegative(r, |cols|);
    RowMajorAt(rows, cols, r, c);
  }

  lemma MulNonNegative(a: nat, b: nat)
    ensures a * b >= 0
  {
  }

  /** `onConflict || 'id'`. */
  function ConflictTarget(onConflict: Option<string>): string {
    if onConflict.Some? && onConflict.value != "" then onConflict.value else "id"
  }

  /** `"c" = EXCLUDED."c"`. */
  function Excluded(c: string): string {
    Quote(c) + " = EXCLUDED." + Quote(c)
  }

  lemma ExcludedInjective(a: string, b: string)
    requires Excluded(a) == Excluded(b)
    ensures a == b
  {
    assert |a| == |b|;
    assert Excluded(a)[1..1 + |a|] == a;
    assert Excluded(b)[1..1 + |b|] == b;
  }

  /** The `SET` list of an upsert: every column but the conflict target. */
  function ExcludedSets(cols: seq<string>, target: string): seq<string> {
    if cols == [] then []
    else
      var c := cols[|cols| - 1];
      ExcludedSets(cols[..|cols| - 1], target) + (if c != target then [Excluded(c)] else [])
  }

  /** The upsert updates exactly the columns other than the conflict target. */
  lemma {:induction false} ExcludedSetsMembers(cols: seq<string>, target: string, c: string)
    ensures Excluded(c) in ExcludedSets(cols, target) <==> c in cols && c != target
  {
    if cols != [] {
      var init := cols[..|cols| - 1];
      var last := cols[|cols| - 1];
      ExcludedSetsMembers(init, target, c);
      assert cols == init + [last];
      if Excluded(c) == Excluded(last) {
        ExcludedInjective(c, last);
      }
    }
  }

  /** `INSERT INTO … VALUES …`, the prefix shared by insert and upsert. */
  function InsertInto(table: string, cols: seq<string>, start: nat, count: nat): string {
    "INSERT INTO " + Quote(table) + " (" + Join(QuoteAll(cols), ", ") + ") VALUES "
    + Join(Tuples(start, count, |cols|), ", ")
  }

  // ---------------------------------------------------------------- update

  /** `"col" = $n` for every column of the update, numbered on from `start`. */
  function SetParts(cols: seq<string>, start: nat): (ps: seq<string>)
    ensures |ps| == |cols|
    ensures forall i :: 0 <= i < |cols| ==> ps[i] == Quote(cols[i]) + " = " + Placeholder(start + i)
  {
    seq(|cols|, i requires 0 <= i < |cols| => Quote(cols[i]) + " = " + Placeholder(start + i))
  }

  function UpdateSql(table: string, row: Row, cs: seq<Condition>, start: nat): string {
    "UPDATE " + Quote(table) + " SET " + Join(SetParts(Keys(row), start), ", ") + Where(cs) + " RETURNING *"
  }

  /** The update as written: the `SET` values are sent before the condition values. */
  function UpdateAsWritten(table: string, row: Row, cs: seq<Condition>, counter: nat): Query {
    Query(UpdateSql(table, row, cs, counter), RowValues(row, Keys(row)) + Values(cs))
  }

  /**
   * The `SET` placeholders are numbered after those of the conditions, which
   * were numbered when the filters were added, but their values are sent
   * first: in `update({name: 'x'}).eq('id', 5)` the statement reads
   * `SET "name" = $2 WHERE "id" = $1` and `$1` is bound to `'x'`.
   */
  lemma UpdateMisbinds()
    ensures var row: Row := [("name", Str("x"))];
            var cs := [Condition(Quote("id") + " = " + Placeholder(1), [Num(5)])];
            var q := UpdateAsWritten("participants", row, cs, 2);
            Numbered(cs, [1], 2)
            && Join(SetParts(Keys(row), 2), ", ") == Quote("name") + " = " + Placeholder(2)
            && q.values == [Str("x"), Num(5)]
            && !Bound(q.values, 1, Num(5)) && !Bound(q.values, 2, Str("x"))
  {
    var cs := [Condition(Quote("id") + " = " + Placeholder(1), [Num(5)])];
    assert cs[..0] == [];
    assert Values(cs) == [Num(5)];
  }

  /** The update with the condition values sent first, as their numbering demands. */
  function UpdateQuery(table: string, row: Row, cs: seq<Condition>, counter: nat): Query {
    Query(UpdateSql(table, row, cs, counter), Values(cs) + RowValues(row, Keys(row)))
  }

  /**
   * With the conditions numbered by the counter, every condition placeholder
   * and every `SET` placeholder of the corrected update is bound to its own value.
   */
  lemma UpdateBinds(table: string, row: Row, cs: seq<Condition>, starts: seq<nat>, counter: nat)
    requires Numbered(cs, starts, counter)
    ensures var q := UpdateQuery(table, row, cs, counter);
            (forall i :: 0 <= i < |row| ==> Bound(q.values, counter + i, Lookup(row, row[i].0)))
            && (forall k, j :: 0 <= k < |cs| && 0 <= j < |cs[k].values| ==>
                  Bound(q.values, starts[k] + j, cs[k].values[j]))
  {
    var vs, rs := Values(cs), RowValues(row, Keys(row));
    assert UpdateQuery(table, row, cs, counter).values == vs + rs;
    SetValuesBound(vs, row, counter);
    ConditionValuesBound(cs, starts, counter, rs);
  }

  /** The `SET` values sent after `vs` are bound to the numbers after it. */
  lemma SetValuesBound(vs: seq<JsValue>, row: Row, start: nat)
    requires start == |vs| + 1
    ensures forall i :: 0 <= i < |row| ==> Bound(vs + RowValues(row, Keys(row)), start + i, Lookup(row, row[i].0))
  {
    var rs := RowValues(row, Keys(row));
    forall i | 0 <= i < |row|
      ensures Bound(vs + rs, start + i, Lookup(row, row[i].0))
    {
      BoundAfter(vs, rs, i);
      assert rs[i] == Lookup(row, Keys(row)[i]);
    }
  }

  /** The condition values sent first keep the numbers the counter gave them. */
  lemma ConditionValuesBound(cs: seq<Condition>, starts: seq<nat>, counter: nat, rs: seq<JsValue>)
    requires Numbered(cs, starts, counter)
    ensures forall k, j :: 0 <= k < |cs| && 0 <= j < |cs[k].values| ==> Bound(Values(cs) + rs, starts[k] + j, cs[k].values[j])
  {
    forall k, j | 0 <= k < |cs| && 0 <= j < |cs[k].values|
      ensures Bound(Values(cs) + rs, starts[k] + j, cs[k].values[j])
    {
      ConditionsBind(cs, starts, counter, k, j);
      BoundBefore(Values(cs), rs, starts[k] + j, cs[k].values[j]);
    }
  }

  /** Values sent later do not move the earlier ones. */
  lemma BoundBefore(a: seq<JsValue>, b: seq<JsValue>, n: nat, v: JsValue)
    requires Bound(a, n, v)
    ensures Bound(a + b, n, v)
  {
  }

  /** The values sent after `a` take the numbers after it. */
  lemma BoundAfter(a: seq<JsValue>, b: seq<JsValue>, i: nat)
    requires i < |b|
    ensures Bound(a + b, |a| + 1 + i, b[i])
  {
  }

  // ---------------------------------------------------------------- results

  /** What `pool.query` resolves to. */
  datatype PgResult = PgResult(rows: seq<JsValue>, rowCount: int)

  /** A successful `DbResult`: its data and its row count. */
  datatype DbResult = DbResult(data: JsValue, count: Option<int>)

  /** `transformResult`: the first row or `null` in single mode, all rows otherwise. */
  function TransformResult(result: Option<PgResult>, single: bool): (r: DbResult)
    ensures result.None? ==> r == DbResult(Null, None)
    ensures result.Some? ==> r.count == Some(result.value.rowCount)
    ensures result.Some? && !single ==> r.data == Arr(result.value.rows)
    ensures result.Some? && single && result.value.rows == [] ==> r.data == Null
    ensures result.Some? && single && result.value.rows != [] && Truthy(result.value.rows[0]) ==>
              r.data == result.value.rows[0]
  {
    if result.None? then DbResult(Null, None)
    else if single then
      var rows := result.value.rows;
      DbResult(if rows != [] && Truthy(rows[0]) then rows[0] else Null, Some(result.value.rowCount))
    else DbResult(Arr(result.value.rows), Some(result.value.rowCount))
  }

  // ---------------------------------------------------------------- the builder

  /** `PostgresQueryBuilder`: the recorded operation, its data and filters, and the placeholder counter. */
  class QueryBuilder {
    var tableName: string
    var operation: Operation
    var selectColumns: string
    /** `selectOptions.count === 'exact'`. */
    var countExact: bool
    var insertData: seq<Row>
    var updateData: Row
    var upsertData: seq<Row>
    var onConflict: Option<string>
    var conditions: seq<Condition>
    var orderByClause: seq<string>
    var limitValue: Option<int>
    var rangeFrom: Option<int>
    var rangeTo: Option<int>
    var paramCounter: nat
    /** The counter value at which each condition started numbering. */
    ghost var starts: seq<nat>

    /** Every condition was numbered by the counter in the order it was added. */
    ghost predicate Valid()
      reads this
    {
      Numbered(conditions, starts, paramCounter)
    }

    constructor (table: string)
      ensures tableName == table && operation == Select && selectColumns == "*" && !countExact
      ensures insertData == [] && updateData == [] && upsertData == [] && onConflict == None
      ensures conditions == [] && orderByClause == [] && limitValue == None
      ensures rangeFrom == None && rangeTo == None && paramCounter == 1
      ensures Valid()
    {
      tableName := table;
      operation := Select;
      selectColumns := "*";
      countExact := false;
      insertData := [];
      updateData := [];
      upsertData := [];
      onConflict := None;
      conditions := [];
      orderByClause := [];
      limitValue := None;
      rangeFrom := None;
      rangeTo := None;
      paramCounter := 1;
      starts := [];
    }

    /** `nextParam`: the current placeholder, and the counter moves on by one. */
    method NextParam() returns (p: string)
      modifies this
      ensures p == Placeholder(old(paramCounter)) && paramCounter == old(paramCounter) + 1
      ensures conditions == old(conditions) && starts == old(starts)
      ensures unchanged(this`tableName, this`operation, this`selectColumns, this`countExact, this`insertData)
      ensures unchanged(this`updateData, this`upsertData, this`onConflict, this`orderByClause)
      ensures unchanged(this`limitValue, this`rangeFrom, this`rangeTo)
    {
      p := Placeholder(paramCounter);
      paramCounter := paramCounter + 1;
    }

    /** `count` successive `nextParam` calls. */
    method NextParams(count: nat) returns (ps: seq<string>)
      modifies this
      ensures ps == Placeholders(old(paramCounter), count) && paramCounter == old(paramCounter) + count
      ensures conditions == old(conditions) && starts == old(starts)
      ensures unchanged(this`tableName, this`operation, this`selectColumns, this`countExact, this`insertData)
      ensures unchanged(this`updateData, this`upsertData, this`onConflict, this`orderByClause)
      ensures unchanged(this`limitValue, this`rangeFrom, this`rangeTo)
    {
      ps := [];
      for i := 0 to count
        invariant ps == Placeholders(old(paramCounter), i) && paramCounter == old(paramCounter) + i
        invariant conditions == old(conditions) && starts == old(starts)
        invariant unchanged(this`tableName, this`operation, this`selectColumns, this`countExact, this`insertData)
        invariant unchanged(this`updateData, this`upsertData, this`onConflict, this`orderByClause)
        invariant unchanged(this`limitValue, this`rangeFrom, this`rangeTo)
      {
        var p := NextParam();
        ps := ps + [p];
      }
    }

    /** Records one condition; it was numbered from the counter value before it. */
    method AddCondition(c: Condition, ghost start: nat)
      requires Numbered(conditions, starts, start) && paramCounter == start + |c.values|
      modifies this
      ensures conditions == old(conditions) + [c] && starts == old(starts) + [start]
      ensures paramCounter == old(paramCounter)
      ensures Valid()
      ensures unchanged(this`tableName, this`operation, this`selectColumns, this`countExact, this`insertData)
      ensures unchanged(this`updateData, this`upsertData, this`onConflict, this`orderByClause)
      ensures unchanged(this`limitValue, this`rangeFrom, this`rangeTo)
    {
      NumberedAppend(conditions, starts, start, c);
      conditions := conditions + [c];
      starts := starts + [start];
    }

    /** `select(columns, options)`. */
    method SelectColumns(columns: Option<string>, count: Option<string>)
      modifies this
      ensures operation == Select
      ensures selectColumns == if columns.Some? && columns.value != "" then columns.value else "*"
      ensures countExact == (count == Some("exact"))
      ensures unchanged(this`tableName, this`insertData, this`updateData, this`upsertData, this`onConflict)
      ensures unchanged(this`conditions, this`starts, this`paramCounter, this`orderByClause)
      ensures unchanged(this`limitValue, this`rangeFrom, this`rangeTo)
    {
      operation := Select;
      selectColumns := if columns.Some? && columns.value != "" then columns.value else "*";
      countExact := count == Some("exact");
    }

    /** `insert(values)`: one object is a list of one row. */
    method InsertRows(rows: seq<Row>)
      modifies this
      ensures operation == Insert && insertData == rows
      ensures unchanged(this`tableName, this`selectColumns, this`countExact, this`updateData, this`upsertData)
      ensures unchanged(this`onConflict, this`conditions, this`starts, this`paramCounter, this`orderByClause)
      ensures unchanged(this`limitValue, this`rangeFrom, this`rangeTo)
    {
      operation := Insert;
      insertData := rows;
    }

    /** `update(values)`. */
    method UpdateRow(row: Row)
      modifies this
      ensures operation == Update && updateData == row
      ensures unchanged(this`tableName, this`selectColumns, this`countExact, this`insertData, this`upsertData)
      ensures unchanged(this`onConflict, this`conditions, this`starts, this`paramCounter, this`orderByClause)
      ensures unchanged(this`limitValue, this`rangeFrom, this`rangeTo)
    {
      operation := Update;
      updateData := row;
    }

    /** `upsert(values, options)`. */
    method UpsertRows(rows: seq<Row>, conflict: Option<string>)
      modifies this
      ensures operation == Upsert && upsertData == rows && onConflict == conflict
      ensures unchanged(this`tableName, this`selectColumns, this`countExact, this`insertData, this`updateData)
      ensures unchanged(this`conditions, this`starts, this`paramCounter, this`orderByClause)
      ensures unchanged(this`limitValue, this`rangeFrom, this`rangeTo)
    {
      operation := Upsert;
      upsertData := rows;
      onConflict := conflict;
    }

    /** `delete()`. */
    method DeleteRows()
      modifies this
      ensures operation == Delete
      ensures unchanged(this`tableName, this`selectColumns, this`countExact, this`insertData, this`updateData)
      ensures unchanged(this`upsertData, this`onConflict, this`conditions, this`starts, this`paramCounter)
      ensures unchanged(this`orderByClause, this`limitValue, this`rangeFrom, this`rangeTo)
    {
      operation := Delete;
    }

    /**
     * `eq`, `neq`, `gt`, `gte`, `lt`, `lte`, `like`, `ilike`, `contains` and
     * `containedBy`. The value is bound as given: for `contains` and
     * `containedBy` the caller passes the `JSON.stringify` text of the value.
     */
    method Compare(column: string, op: CompareOp, value: JsValue)
      requires Valid()
      modifies this
      ensures conditions == old(conditions) + [Condition(Quote(column) + " " + OpText(op) + " " + Placeholder(old(paramCounter)), [value])]
      ensures starts == old(starts) + [old(paramCounter)] && paramCounter == old(paramCounter) + 1
      ensures Valid()
      ensures unchanged(this`tableName, this`operation, this`selectColumns, this`countExact, this`insertData)
      ensures unchanged(this`updateData, this`upsertData, this`onConflict, this`orderByClause)
      ensures unchanged(this`limitValue, this`rangeFrom, this`rangeTo)
    {
      var start := paramCounter;
      var p := NextParam();
      AddCondition(Condition(Quote(column) + " " + OpText(op) + " " + p, [value]), start);
    }

    /** `filter(column, operator, value)`: any operator, one placeholder. */
    method Filter(column: string, operator: string, value: JsValue)
      requires Valid()
      modifies this
      ensures conditions == old(conditions) + [Condition(Quote(column) + " " + operator + " " + Placeholder(old(paramCounter)), [value])]
      ensures starts == old(starts) + [old(paramCounter)] && paramCounter == old(paramCounter) + 1
      ensures Valid()
      ensures unchanged(this`tableName, this`operation, this`selectColumns, this`countExact, this`insertData)
      ensures unchanged(this`updateData, this`upsertData, this`onConflict, this`orderByClause)
      ensures unchanged(this`limitValue, this`rangeFrom, this`rangeTo)
    {
      var start := paramCounter;
      var p := NextParam();
      AddCondition(Condition(Quote(column) + " " + operator + " " + p, [value]), start);
    }

    /** `not(column, operator, value)`. */
    method Not(column: string, operator: string, value: JsValue)
      requires Valid()
      modifies this
      ensures conditions == old(conditions) + [Condition("NOT (" + Quote(column) + " " + operator + " " + Placeholder(old(paramCounter)) + ")", [value])]
      ensures starts == old(starts) + [old(paramCounter)] && paramCounter == old(paramCounter) + 1
      ensures Valid()
      ensures unchanged(this`tableName, this`operation, this`selectColumns, this`countExact, this`insertData)
      ensures unchanged(this`updateData, this`upsertData, this`onConflict, this`orderByClause)
      ensures unchanged(this`limitValue, this`rangeFrom, this`rangeTo)
    {
      var start := paramCounter;
      var p := NextParam();
      AddCondition(Condition("NOT (" + Quote(column) + " " + operator + " " + p + ")", [value]), start);
    }

    /** `is(column, null | boolean)`: no placeholder, no value. */
    method Is(column: string, value: Option<bool>)
      requires Valid()
      modifies this
      ensures value.None? ==> conditions == old(conditions) + [Condition(Quote(column) + " IS NULL", [])]
      ensures value.Some? ==>
                conditions == old(conditions) + [Condition(Quote(column) + " IS " + (if value.value then "TRUE" else "FALSE"), [])]
      ensures starts == old(starts) + [old(paramCounter)] && paramCounter == old(paramCounter)
      ensures Valid()
      ensures unchanged(this`tableName, this`operation, this`selectColumns, this`countExact, this`insertData)
      ensures unchanged(this`updateData, this`upsertData, this`onConflict, this`orderByClause)
      ensures unchanged(this`limitValue, this`rangeFrom, this`rangeTo)
    {
      if value.None? {
        AddCondition(Condition(Quote(column) + " IS NULL", []), paramCounter);
      } else {
        AddCondition(Condition(Quote(column) + " IS " + (if value.value then "TRUE" else "FALSE"), []), paramCounter);
      }
    }

    /** `in(column, values)`: `1 = 0` for no values, else one placeholder per value. */
    method In(column: string, values: seq<JsValue>)
      requires Valid()
      modifies this
      ensures values == [] ==> conditions == old(conditions) + [Condition("1 = 0", [])]
      ensures values != [] ==>
                conditions == old(conditions)
                  + [Condition(Quote(column) + " IN (" + Join(Placeholders(old(paramCounter), |values|), ", ") + ")", values)]
      ensures starts == old(starts) + [old(paramCounter)] && paramCounter == old(paramCounter) + |values|
      ensures Valid()
      ensures unchanged(this`tableName, this`operation, this`selectColumns, this`countExact, this`insertData)
      ensures unchanged(this`updateData, this`upsertData, this`onConflict, this`orderByClause)
      ensures unchanged(this`limitValue, this`rangeFrom, this`rangeTo)
    {
      if |values| == 0 {
        AddCondition(Condition("1 = 0", []), paramCounter);
      } else {
        var start := paramCounter;
        var ps := NextParams(|values|);
        AddCondition(Condition(Quote(column) + " IN (" + Join(ps, ", ") + ")", values), start);
      }
    }

    /** `or(filters)`: the filter text with its dots turned into spaces, no value. */
    method Or(filters: string)
      requires Valid()
      modifies this
      ensures conditions == old(conditions) + [Condition("(" + DotsToSpaces(filters) + ")", [])]
      ensures starts == old(starts) + [old(paramCounter)] && paramCounter == old(paramCounter)
      ensures Valid()
      ensures unchanged(this`tableName, this`operation, this`selectColumns, this`countExact, this`insertData)
      ensures unchanged(this`updateData, this`upsertData, this`onConflict, this`orderByClause)
      ensures unchanged(this`limitValue, this`rangeFrom, this`rangeTo)
    {
      AddCondition(Condition("(" + DotsToSpaces(filters) + ")", []), paramCounter);
    }

    /** `order(column, options)`: ascending unless `ascending` is `false`, nulls last unless `nullsFirst`. */
    method Order(column: string, ascending: Option<bool>, nullsFirst: bool)
      modifies this
      ensures orderByClause == old(orderByClause)
                + [Quote(column) + " " + (if ascending == Some(false) then "DESC" else "ASC")
                   + " " + (if nullsFirst then "NULLS FIRST" else "NULLS LAST")]
      ensures unchanged(this`tableName, this`operation, this`selectColumns, this`countExact, this`insertData)
      ensures unchanged(this`updateData, this`upsertData, this`onConflict, this`conditions, this`starts)
      ensures unchanged(this`paramCounter, this`limitValue, this`rangeFrom, this`rangeTo)
    {
      var direction := if ascending == Some(false) then "DESC" else "ASC";
      var nulls := if nullsFirst then "NULLS FIRST" else "NULLS LAST";
      orderByClause := orderByClause + [Quote(column) + " " + direction + " " + nulls];
    }

    /** `limit(count)`. */
    method Limit(count: int)
      modifies this
      ensures limitValue == Some(count)
      ensures unchanged(this`tableName, this`operation, this`selectColumns, this`countExact, this`insertData)
      ensures unchanged(this`updateData, this`upsertData, this`onConflict, this`conditions, this`starts)
      ensures unchanged(this`paramCounter, this`orderByClause, this`rangeFrom, this`rangeTo)
    {
      limitValue := Some(count);
    }

    /** `range(from, to)`. */
    method Range(from: int, to: int)
      modifies this
      ensures rangeFrom == Some(from) && rangeTo == Some(to)
      ensures unchanged(this`tableName, this`operation, this`selectColumns, this`countExact, this`insertData)
      ensures unchanged(this`updateData, this`upsertData, this`onConflict, this`conditions, this`starts)
      ensures unchanged(this`paramCounter, this`orderByClause, this`limitValue)
    {
      rangeFrom := Some(from);
      rangeTo := Some(to);
    }

    /** The statement `buildQuery` assembles from the current state. */
    function Built(): Result<Query, string>
      reads this
    {
      match operation
      case Select =>
        Ok(Query(SelectSql(tableName, selectColumns, countExact, conditions, orderByClause, limitValue, rangeFrom, rangeTo),
                 Values(conditions)))
      case Insert =>
        if insertData == [] then Err(NoRowError)
        else
          var cols := Keys(insertData[0]);
          Ok(Query(InsertInto(tableName, cols, 1, |insertData|) + " RETURNING *", RowMajor(insertData, cols)))
      case Update => Ok(UpdateQuery(tableName, updateData, conditions, paramCounter))
      case Upsert =>
        if upsertData == [] then Err(NoRowError)
        else
          var cols := Keys(upsertData[0]);
          var target := ConflictTarget(onConflict);
          Ok(Query(InsertInto(tableName, cols, paramCounter, |upsertData|)
                   + " ON CONFLICT (" + Quote(target) + ") DO UPDATE SET " + Join(ExcludedSets(cols, target), ", ")
                   + " RETURNING *",
                   RowMajor(upsertData, cols)))
      case Delete =>
        Ok(Query("DELETE FROM " + Quote(tableName) + Where(conditions) + " RETURNING *", Values(conditions)))
    }

    /** The counter after `buildQuery`: the row placeholders of a write are numbered on from it. */
    function CounterAfterBuild(): nat
      reads this
    {
      match operation
      case Insert => if insertData == [] then paramCounter else 1 + |insertData| * |Keys(insertData[0])|
      case Update => paramCounter + |updateData|
      case Upsert => if upsertData == [] then paramCounter else paramCounter + |upsertData| * |Keys(upsertData[0])|
      case _ => paramCounter
    }

    /** `buildQuery`: the statement and the values, in the order node-postgres binds them. */
    method BuildQuery() returns (q: Result<Query, string>)
      modifies this
      ensures q == old(Built())
      ensures paramCounter == old(CounterAfterBuild())
      ensures unchanged(this`tableName, this`operation, this`selectColumns, this`countExact, this`insertData)
      ensures unchanged(this`updateData, this`upsertData, this`onConflict, this`conditions, this`starts)
      ensures unchanged(this`orderByClause, this`limitValue, this`rangeFrom, this`rangeTo)
    {
      match operation
      case Select =>
        var whereValues := ConditionValues(conditions);
        q := Ok(Query(SelectSql(tableName, selectColumns, countExact, conditions, orderByClause, limitValue, rangeFrom, rangeTo),
                      whereValues));
      case Insert =>
        if insertData == [] {
          return Err(NoRowError);
        }
        var cols := Keys(insertData[0]);
        var allValues := CollectRows(insertData, cols);
        paramCounter := 1;
        var tuples := NextTuples(|insertData|, |cols|);
        var columnNames := Join(QuoteAll(cols), ", ");
        q := Ok(Query("INSERT INTO " + Quote(tableName) + " (" + columnNames + ") VALUES " + Join(tuples, ", ")
                      + " RETURNING *", allValues));
      case Update =>
        var cols := Keys(updateData);
        var start := paramCounter;
        var setValues := RowValues(updateData, cols);
        var params := NextParams(|cols|);
        var ps := seq(|cols|, i requires 0 <= i < |cols| => Quote(cols[i]) + " = " + params[i]);
        assert ps == SetParts(cols, start);
        var whereValues := ConditionValues(conditions);
        q := Ok(Query("UPDATE " + Quote(tableName) + " SET " + Join(ps, ", ") + Where(conditions) + " RETURNING *",
                      whereValues + setValues));
      case Upsert =>
        if upsertData == [] {
          return Err(NoRowError);
        }
        var cols := Keys(upsertData[0]);
        var allValues := CollectRows(upsertData, cols);
        var start := paramCounter;
        var tuples := NextTuples(|upsertData|, |cols|);
        var target := ConflictTarget(onConflict);
        var columnNames := Join(QuoteAll(cols), ", ");
        q := Ok(Query("INSERT INTO " + Quote(tableName) + " (" + columnNames + ") VALUES " + Join(tuples, ", ")
                      + " ON CONFLICT (" + Quote(target) + ") DO UPDATE SET " + Join(ExcludedSets(cols, target), ", ")
                      + " RETURNING *",
                      allValues));
      case Delete =>
        var whereValues := ConditionValues(conditions);
        q := Ok(Query("DELETE FROM " + Quote(tableName) + Where(conditions) + " RETURNING *", whereValues));
    }

    /** The row tuples of a write, each row taking the next `width` numbers. */
    method NextTuples(count: nat, width: nat) returns (ts: seq<string>)
      modifies this
      ensures ts == Tuples(old(paramCounter), count, width)
      ensures paramCounter == old(paramCounter) + count * width
      ensures unchanged(this`tableName, this`operation, this`selectColumns, this`countExact, this`insertData)
      ensures unchanged(this`updateData, this`upsertData, this`onConflict, this`conditions, this`starts)
      ensures unchanged(this`orderByClause, this`limitValue, this`rangeFrom, this`rangeTo)
    {
      ts := [];
      for r := 0 to count
        invariant ts == Tuples(old(paramCounter), r, width)
        invariant paramCounter == old(paramCounter) + r * width
        invariant unchanged(this`tableName, this`operation, this`selectColumns, this`countExact, this`insertData)
        invariant unchanged(this`updateData, this`upsertData, this`onConflict, this`conditions, this`starts)
        invariant unchanged(this`orderByClause, this`limitValue, this`rangeFrom, this`rangeTo)
      {
        var ps := NextParams(width);
        ts := ts + ["(" + Join(ps, ", ") + ")"];
        assert (r + 1) * width == r * width + width;
      }
    }
  }

  /** The error of a write with no rows: `Object.keys(undefined)` throws. */
  const NoRowError := "Cannot convert undefined or null to object"

  /** `text.replace(/\./g, ' ')`. */
  function DotsToSpaces(text: string): (r: string)
    ensures |r| == |text|
    ensures forall i :: 0 <= i < |text| ==> r[i] == if text[i] == '.' then ' ' else text[i]
  {
    seq(|text|, i requires 0 <= i < |text| => if text[i] == '.' then ' ' else text[i])
  }

  /** The `for (const cond of this.conditions)` loop: the values of all conditions, in order. */
  method ConditionValues(cs: seq<Condition>) returns (values: seq<JsValue>)
    ensures values == Values(cs)
  {
    values := [];
    for k := 0 to |cs|
      invariant values == Values(cs[..k])
    {
      assert cs[..k + 1][..k] == cs[..k];
      values := values + cs[k].values;
    }
    assert cs[..|cs|] == cs;
  }

  /** The nested `for (const row of rows) for (const col of columns)` loop. */
  method CollectRows(rows: seq<Row>, cols: seq<string>) returns (values: seq<JsValue>)
    ensures values == RowMajor(rows, cols)
  {
    values := [];
    for r := 0 to |rows|
      invariant values == RowMajor(rows[..r], cols)
    {
      assert rows[..r + 1][..r] == rows[..r];
      for c := 0 to |cols|
        invariant values == RowMajor(rows[..r], cols) + RowValues(rows[r], cols[..c])
      {
        assert RowValues(rows[r], cols[..c + 1]) == RowValues(rows[r], cols[..c]) + [Lookup(rows[r], cols[c])];
        values := values + [Lookup(rows[r], cols[c])];
      }
      assert cols[..|cols|] == cols;
    }
    assert rows[..|rows|] == rows;
  }
}
