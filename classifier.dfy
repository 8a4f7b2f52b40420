/** The match classifier: picks the deletion-queue matches that apply to one
    data mapper and turns them into the column groups of a query. Each
    configured column gets one Simple group holding every simple match id, and
    composite matches are grouped by their sorted list of columns. */
module Classifier {
  import opened Outcomes
  import opened Text
  import opened Lists

  import opened Caster

  /** One column/value pair of a composite match id. */
  datatype ColumnValue = ColumnValue(column: string, value: Raw)

  /** A deletion-queue item. A simple match (`typed` says whether the item
      spells out `"Type": "Simple"`) is looked for in every configured column;
      a composite match names its columns. `dataMappers` is the item's scope:
      absent or empty means every data mapper. */
  datatype DeletionMatch =
    | Simple(matchId: Raw, typed: bool, dataMappers: Option<seq<string>>)
    | Composite(pairs: seq<ColumnValue>, dataMappers: Option<seq<string>>)

  /** Whether `m` applies to the data mapper `mapperId`. */
  predicate InScope(m: DeletionMatch, mapperId: string): (b: bool)
    ensures m.dataMappers.None? || m.dataMappers.value == [] ==> b
    ensures m.dataMappers.Some? && mapperId in m.dataMappers.value ==> b
    ensures m.dataMappers.Some? && m.dataMappers.value != [] && mapperId !in m.dataMappers.value ==> !b
  {
    m.dataMappers.None? || m.dataMappers.value == [] || mapperId in m.dataMappers.value
  }

  /** The matches of the queue that apply to the data mapper, each once, in
      the order they were first queued. */
  function Applicable(queue: seq<DeletionMatch>, mapperId: string): (r: seq<DeletionMatch>)
    ensures forall m :: m in r <==> m in queue && InScope(m, mapperId)
    ensures Distinct(r)
    ensures (forall i :: 0 <= i < |queue| ==> !InScope(queue[i], mapperId)) ==> r == []
  {
    Dedup(Filter(queue, m => InScope(m, mapperId)))
  }

  /** The applicable matches come in the order in which each was first queued. */
  lemma ApplicableOrder(queue: seq<DeletionMatch>, mapperId: string)
    ensures forall i, j :: 0 <= i < j < |Applicable(queue, mapperId)| ==>
      FirstIndex(queue, Applicable(queue, mapperId)[i]) < FirstIndex(queue, Applicable(queue, mapperId)[j])
  {
    var p := m => InScope(m, mapperId);
    DedupFilter(queue, p);
    DedupOrder(queue);
    FilterOrder(Dedup(queue), p, queue);
  }

  // ---------------------------------------------------------------------
  // Putting the pairs of a composite match in column order.

  predicate SortedByColumn(row: seq<ColumnValue>) {
    forall i, j :: 0 <= i < j < |row| ==> LessEq(row[i].column, row[j].column)
  }

  /** Inserts `x` before the first pair whose column is not smaller. */
  function Insert(x: ColumnValue, row: seq<ColumnValue>): (r: seq<ColumnValue>)
    requires SortedByColumn(row)
    ensures SortedByColumn(r)
    ensures multiset(r) == multiset(row) + multiset{x}
  {
    if row == [] then [x]
    else if LessEq(x.column, row[0].column) then
      InsertFront(x, row);
      [x] + row
    else
      var rest := Insert(x, row[1..]);
      LessEqTotal(x.column, row[0].column);
      InsertBehind(row, x, rest);
      assert row == [row[0]] + row[1..];
      [row[0]] + rest
  }

  lemma InsertFront(x: ColumnValue, row: seq<ColumnValue>)
    requires SortedByColumn(row) && row != [] && LessEq(x.column, row[0].column)
    ensures SortedByColumn([x] + row)
  {
    forall j | 0 < j < |row|
      ensures LessEq(x.column, row[j].column)
    {
      LessEqTransitive(x.column, row[0].column, row[j].column);
    }
  }

  lemma InsertBehind(row: seq<ColumnValue>, x: ColumnValue, rest: seq<ColumnValue>)
    requires SortedByColumn(row) && row != [] && LessEq(row[0].column, x.column)
    requires SortedByColumn(rest) && multiset(rest) == multiset(row[1..]) + multiset{x}
    ensures SortedByColumn([row[0]] + rest)
  {
    forall k | 0 <= k < |rest|
      ensures LessEq(row[0].column, rest[k].column)
    {
      assert rest[k] in multiset(rest);
      if rest[k] != x {
        assert rest[k] in row[1..];
      }
    }
  }

  /** The pairs of a composite match sorted by column name; pairs with equal
      names keep their order. */
  function SortByColumn(row: seq<ColumnValue>): (r: seq<ColumnValue>)
    ensures SortedByColumn(r)
    ensures multiset(r) == multiset(row)
  {
    if row == [] then []
    else
      assert row == [row[0]] + row[1..];
      Insert(row[0], SortByColumn(row[1..]))
  }

  /** The column names of a row of pairs, in order. */
  function Key(row: seq<ColumnValue>): (k: seq<string>)
    ensures |k| == |row| && forall i :: 0 <= i < |row| ==> k[i] == row[i].column
  {
    seq(|row|, i requires 0 <= i < |row| => row[i].column)
  }

  // ---------------------------------------------------------------------
  // Splitting the applicable matches into simple ids and sorted composite rows.

  /** The ids of the simple matches, in order. */
  function SimpleIds(ms: seq<DeletionMatch>): (ids: seq<Raw>)
    ensures forall m :: m in ms && m.Simple? ==> m.matchId in ids
  {
    if ms == [] then []
    else
      var rest := SimpleIds(ms[1..]);
      assert forall m :: m in ms[1..] ==> m in ms;
      if ms[0].Simple? then [ms[0].matchId] + rest else rest
  }

  /** SimpleIds distributes over concatenation: with SimpleIdsOne this says
      the ids are those of the simple matches, one each, in queue order. */
  lemma {:induction false} SimpleIdsAppend(a: seq<DeletionMatch>, b: seq<DeletionMatch>)
    ensures SimpleIds(a + b) == SimpleIds(a) + SimpleIds(b)
  {
    if a == [] {
      assert a + b == b;
    } else {
      assert (a + b)[0] == a[0] && (a + b)[1..] == a[1..] + b;
      SimpleIdsAppend(a[1..], b);
    }
  }

  lemma SimpleIdsOne(m: DeletionMatch)
    ensures SimpleIds([m]) == if m.Simple? then [m.matchId] else []
  {
    assert [m][1..] == [];
  }

  /** Every id comes from a simple match. */
  lemma {:induction false} SimpleIdOrigin(ms: seq<DeletionMatch>, v: Raw) returns (j: nat)
    requires v in SimpleIds(ms)
    ensures j < |ms| && ms[j].Simple? && ms[j].matchId == v
  {
    if ms[0].Simple? && ms[0].matchId == v {
      j := 0;
    } else {
      var k := SimpleIdOrigin(ms[1..], v);
      j := k + 1;
    }
  }

  /** The pairs of every composite match, sorted by column, in order. */
  function Rows(ms: seq<DeletionMatch>): (rows: seq<seq<ColumnValue>>)
    ensures forall row :: row in rows ==> SortedByColumn(row)
    ensures forall m :: m in ms && m.Composite? ==> SortByColumn(m.pairs) in rows
  {
    if ms == [] then []
    else
      var rest := Rows(ms[1..]);
      assert forall m :: m in ms[1..] ==> m in ms;
      if ms[0].Composite? then [SortByColumn(ms[0].pairs)] + rest else rest
  }

  /** Rows distributes over concatenation: with RowsOne this says the rows
      are the sorted pairs of the composite matches, one each, in queue order. */
  lemma {:induction false} RowsAppend(a: seq<DeletionMatch>, b: seq<DeletionMatch>)
    ensures Rows(a + b) == Rows(a) + Rows(b)
  {
    if a == [] {
      assert a + b == b;
    } else {
      assert (a + b)[0] == a[0] && (a + b)[1..] == a[1..] + b;
      RowsAppend(a[1..], b);
    }
  }

  lemma RowsOne(m: DeletionMatch)
    ensures Rows([m]) == if m.Composite? then [SortByColumn(m.pairs)] else []
  {
    assert [m][1..] == [];
  }

  /** Every row comes from a composite match. */
  lemma {:induction false} RowOrigin(ms: seq<DeletionMatch>, row: seq<ColumnValue>) returns (j: nat)
    requires row in Rows(ms)
    ensures j < |ms| && ms[j].Composite? && row == SortByColumn(ms[j].pairs)
  {
    if ms[0].Composite? && row == SortByColumn(ms[0].pairs) {
      j := 0;
    } else {
      var k := RowOrigin(ms[1..], row);
      j := k + 1;
    }
  }

  /** The column lists of the rows, each once, in first-seen order. */
  function Keys(rows: seq<seq<ColumnValue>>): (keys: seq<seq<string>>)
    ensures forall row :: row in rows ==> Key(row) in keys
    ensures Distinct(keys)
  {
    Dedup(AllKeys(rows))
  }

  function AllKeys(rows: seq<seq<ColumnValue>>): (all: seq<seq<string>>)
    ensures |all| == |rows| && forall i :: 0 <= i < |rows| ==> all[i] == Key(rows[i])
  {
    seq(|rows|, i requires 0 <= i < |rows| => Key(rows[i]))
  }

  /** Every key is the column list of some row. */
  lemma KeyOrigin(rows: seq<seq<ColumnValue>>, k: seq<string>) returns (i: nat)
    requires k in Keys(rows)
    ensures i < |rows| && Key(rows[i]) == k
  {
    var all := AllKeys(rows);
    assert k in all;
    i := FirstIndex(all, k);
  }

  // ---------------------------------------------------------------------
  // Column groups.

  /** One entry of a query's `Columns`: every simple id, cast to one column's
      type, or every tuple of one composite column list, each value cast to
      its column's type. */
  datatype ColumnGroup =
    | SimpleGroup(column: string, ids: seq<Value>)
    | CompositeGroup(columns: seq<string>, tuples: seq<seq<Value>>)

  /** The Simple group of `column`: every id cast to the column's type. */
  function SimpleGroupFor(column: string, ids: seq<Raw>, cast: (Raw, string) -> Result<Value>): (r: Result<ColumnGroup>)
    ensures r.Ok? <==> forall i :: 0 <= i < |ids| ==> cast(ids[i], column).Ok?
    ensures r.Ok? ==> r.value.SimpleGroup? && r.value.column == column && |r.value.ids| == |ids|
    ensures r.Ok? ==> forall i :: 0 <= i < |ids| ==> r.value.ids[i] == cast(ids[i], column).value
  {
    var values :- Traverse(ids, v => cast(v, column));
    Ok(SimpleGroup(column, values))
  }

  /** A composite row's values, each cast to the type of its own column. */
  function CastRow(row: seq<ColumnValue>, cast: (Raw, string) -> Result<Value>): (r: Result<seq<Value>>)
    ensures r.Ok? <==> forall i :: 0 <= i < |row| ==> cast(row[i].value, row[i].column).Ok?
    ensures r.Ok? ==> |r.value| == |row|
    ensures r.Ok? ==> forall i :: 0 <= i < |row| ==> r.value[i] == cast(row[i].value, row[i].column).value
  {
    Traverse(row, (p: ColumnValue) => cast(p.value, p.column))
  }

  /** The rows whose column list is `key`, in order. */
  function WithKey(rows: seq<seq<ColumnValue>>, key: seq<string>): (r: seq<seq<ColumnValue>>)
    ensures forall row :: row in r <==> row in rows && Key(row) == key
  {
    Filter(rows, row => Key(row) == key)
  }

  /** WithKey distributes over concatenation and keeps a single row exactly
      when it has the key: the tuples of a Composite group follow the rows'
      order, repeats included. */
  lemma WithKeyAppend(a: seq<seq<ColumnValue>>, b: seq<seq<ColumnValue>>, key: seq<string>)
    ensures WithKey(a + b, key) == WithKey(a, key) + WithKey(b, key)
    ensures forall row :: WithKey([row], key) == if Key(row) == key then [row] else []
  {
    FilterAppend(a, b, row => Key(row) == key);
    forall row
      ensures WithKey([row], key) == if Key(row) == key then [row] else []
    {
      FilterOne(row, row => Key(row) == key);
    }
  }

  /** The Composite group of the column list `key`: the cast values of every
      row with exactly those columns, in order. */
  function CompositeGroupFor(key: seq<string>, rows: seq<seq<ColumnValue>>, cast: (Raw, string) -> Result<Value>): (r: Result<ColumnGroup>)
    ensures r.Ok? <==> forall row :: row in WithKey(rows, key) ==> CastRow(row, cast).Ok?
    ensures r.Ok? ==> r.value.CompositeGroup? && r.value.columns == key
    ensures r.Ok? ==> |r.value.tuples| == |WithKey(rows, key)|
    ensures r.Ok? ==> forall i :: 0 <= i < |WithKey(rows, key)| ==>
      r.value.tuples[i] == CastRow(WithKey(rows, key)[i], cast).value
  {
    var group := WithKey(rows, key);
    var tuples :- Traverse(group, row => CastRow(row, cast));
    assert forall row :: row in group ==> exists i :: 0 <= i < |group| && group[i] == row;
    Ok(CompositeGroup(key, tuples))
  }

  /** The Simple groups: one per configured column, in configured order, or
      none at all when there is no simple match. */
  function SimpleGroups(configured: seq<string>, ids: seq<Raw>, cast: (Raw, string) -> Result<Value>): (r: Result<seq<ColumnGroup>>)
    ensures ids == [] ==> r == Ok([])
    ensures ids != [] ==> (r.Ok? <==> forall i :: 0 <= i < |configured| ==> SimpleGroupFor(configured[i], ids, cast).Ok?)
    ensures r.Ok? && ids != [] ==> |r.value| == |configured|
    ensures r.Ok? && ids != [] ==>
      forall i :: 0 <= i < |configured| ==> r.value[i] == SimpleGroupFor(configured[i], ids, cast).value
  {
    if ids == [] then Ok([]) else Traverse(configured, c => SimpleGroupFor(c, ids, cast))
  }

  /** The Composite groups: one per distinct column list, in first-seen order. */
  function CompositeGroups(rows: seq<seq<ColumnValue>>, cast: (Raw, string) -> Result<Value>): (r: Result<seq<ColumnGroup>>)
    ensures r.Ok? <==> forall j :: 0 <= j < |Keys(rows)| ==> CompositeGroupFor(Keys(rows)[j], rows, cast).Ok?
    ensures r.Ok? ==> |r.value| == |Keys(rows)|
    ensures r.Ok? ==>
      forall j :: 0 <= j < |Keys(rows)| ==> r.value[j] == CompositeGroupFor(Keys(rows)[j], rows, cast).value
  {
    var keys := Keys(rows);
    Traverse(keys, k => CompositeGroupFor(k, rows, cast))
  }

  /** How many Simple groups ColumnGroups puts first. */
  function SimpleCount(configured: seq<string>, ms: seq<DeletionMatch>): nat {
    if SimpleIds(ms) == [] then 0 else |configured|
  }

  /** The `Columns` of the queries for the applicable matches `ms`: the
      Simple groups, then the Composite groups, as the lemmas below lay out. */
  function ColumnGroups(configured: seq<string>, cast: (Raw, string) -> Result<Value>, ms: seq<DeletionMatch>): (r: Result<seq<ColumnGroup>>)
    ensures r.Ok? <==> SimpleGroups(configured, SimpleIds(ms), cast).Ok? && CompositeGroups(Rows(ms), cast).Ok?
    ensures r.Ok? ==> r.value == SimpleGroups(configured, SimpleIds(ms), cast).value + CompositeGroups(Rows(ms), cast).value
  {
    var simple :- SimpleGroups(configured, SimpleIds(ms), cast);
    var composite :- CompositeGroups(Rows(ms), cast);
    Ok(simple + composite)
  }

  /** How many groups there are: one Simple group per configured column when
      there is at least one simple match, plus one per distinct column list. */
  lemma ColumnGroupsLength(configured: seq<string>, cast: (Raw, string) -> Result<Value>, ms: seq<DeletionMatch>)
    requires ColumnGroups(configured, cast, ms).Ok?
    ensures |ColumnGroups(configured, cast, ms).value| == SimpleCount(configured, ms) + |Keys(Rows(ms))|
  {
  }

  /** The Simple groups come first, in configured order, each holding every
      simple id cast to that column's type. */
  lemma ColumnGroupsSimple(configured: seq<string>, cast: (Raw, string) -> Result<Value>, ms: seq<DeletionMatch>, i: nat)
    requires ColumnGroups(configured, cast, ms).Ok? && i < SimpleCount(configured, ms)
    ensures SimpleGroupFor(configured[i], SimpleIds(ms), cast).Ok?
    ensures ColumnGroups(configured, cast, ms).value[i] == SimpleGroupFor(configured[i], SimpleIds(ms), cast).value
  {
    var simple := SimpleGroups(configured, SimpleIds(ms), cast).value;
    assert ColumnGroups(configured, cast, ms).value[i] == simple[i];
  }

  /** Then one Composite group per distinct column list, in first-seen order. */
  lemma ColumnGroupsComposite(configured: seq<string>, cast: (Raw, string) -> Result<Value>, ms: seq<DeletionMatch>, j: nat)
    requires ColumnGroups(configured, cast, ms).Ok? && j < |Keys(Rows(ms))|
    ensures CompositeGroupFor(Keys(Rows(ms))[j], Rows(ms), cast).Ok?
    ensures ColumnGroups(configured, cast, ms).value[SimpleCount(configured, ms) + j] ==
      CompositeGroupFor(Keys(Rows(ms))[j], Rows(ms), cast).value
  {
    var simple := SimpleGroups(configured, SimpleIds(ms), cast);
    var composite := CompositeGroups(Rows(ms), cast);
    assert simple.Ok? && composite.Ok?;
    assert ColumnGroups(configured, cast, ms).value == simple.value + composite.value;
    SimpleGroupsCount(configured, ms, cast);
    AppendIndex(simple.value, composite.value, j);
  }

  /** Indexing into the second half of a concatenation, kept apart from the
      large context of ColumnGroupsComposite. */
  lemma AppendIndex<T>(a: seq<T>, b: seq<T>, j: nat)
    requires j < |b|
    ensures (a + b)[|a| + j] == b[j]
  {
  }

  lemma SimpleGroupsCount(configured: seq<string>, ms: seq<DeletionMatch>, cast: (Raw, string) -> Result<Value>)
    requires SimpleGroups(configured, SimpleIds(ms), cast).Ok?
    ensures |SimpleGroups(configured, SimpleIds(ms), cast).value| == SimpleCount(configured, ms)
  {
  }


  // ---------------------------------------------------------------------
  // What the groups mean.

  /** The Simple groups can be built exactly when every simple match id casts
      to the type of every configured column. */
  lemma SimpleGroupsOk(configured: seq<string>, ms: seq<DeletionMatch>, cast: (Raw, string) -> Result<Value>)
    ensures SimpleGroups(configured, SimpleIds(ms), cast).Ok? <==>
      forall m, c :: m in ms && m.Simple? && c in configured ==> cast(m.matchId, c).Ok?
  {
    var ids := SimpleIds(ms);
    if SimpleGroups(configured, ids, cast).Ok? {
      forall m, c | m in ms && m.Simple? && c in configured
        ensures cast(m.matchId, c).Ok?
      {
        var i := FirstIndex(configured, c);
        var k := FirstIndex(ids, m.matchId);
        assert SimpleGroupFor(c, ids, cast).Ok?;
      }
    } else if ids != [] && forall m, c :: m in ms && m.Simple? && c in configured ==> cast(m.matchId, c).Ok? {
      forall i | 0 <= i < |configured|
        ensures SimpleGroupFor(configured[i], ids, cast).Ok?
      {
        forall k | 0 <= k < |ids|
          ensures cast(ids[k], configured[i]).Ok?
        {
          var j := SimpleIdOrigin(ms, ids[k]);
          assert ms[j] in ms && configured[i] in configured;
        }
      }
    }
  }

  /** The Composite groups can be built exactly when every row casts. */
  lemma CompositeGroupsOk(rows: seq<seq<ColumnValue>>, cast: (Raw, string) -> Result<Value>)
    ensures CompositeGroups(rows, cast).Ok? <==> forall row :: row in rows ==> CastRow(row, cast).Ok?
  {
    var keys := Keys(rows);
    if CompositeGroups(rows, cast).Ok? {
      forall row | row in rows
        ensures CastRow(row, cast).Ok?
      {
        var j := FirstIndex(keys, Key(row));
        assert CompositeGroupFor(keys[j], rows, cast).Ok?;
        assert row in WithKey(rows, keys[j]);
      }
    }
  }

  /** Every row casts exactly when every pair of every composite match casts
      to the type of its own column. */
  lemma RowsCastOk(ms: seq<DeletionMatch>, cast: (Raw, string) -> Result<Value>)
    ensures (forall row :: row in Rows(ms) ==> CastRow(row, cast).Ok?) <==>
      forall m, p :: m in ms && m.Composite? && p in m.pairs ==> cast(p.value, p.column).Ok?
  {
    var rows := Rows(ms);
    if forall row :: row in rows ==> CastRow(row, cast).Ok? {
      forall m, p | m in ms && m.Composite? && p in m.pairs
        ensures cast(p.value, p.column).Ok?
      {
        var row := SortByColumn(m.pairs);
        assert row in rows && CastRow(row, cast).Ok?;
        assert p in multiset(m.pairs) && p in multiset(row);
        var i := FirstIndex(row, p);
      }
    } else {
      var row: seq<ColumnValue> :| row in rows && !CastRow(row, cast).Ok?;
      var j := RowOrigin(ms, row);
      var m := ms[j];
      var i: int :| 0 <= i < |row| && !cast(row[i].value, row[i].column).Ok?;
      assert row[i] in multiset(row) && row[i] in multiset(m.pairs);
      assert m in ms && row[i] in m.pairs;
    }
  }

  /** Building the groups fails exactly when some applicable match holds a
      value that does not cast to its column: a simple id against some
      configured column, or a composite pair against its own column. */
  lemma ColumnGroupsOk(configured: seq<string>, cast: (Raw, string) -> Result<Value>, ms: seq<DeletionMatch>)
    ensures ColumnGroups(configured, cast, ms).Ok? <==>
      (forall m, c :: m in ms && m.Simple? && c in configured ==> cast(m.matchId, c).Ok?) &&
      (forall m, p :: m in ms && m.Composite? && p in m.pairs ==> cast(p.value, p.column).Ok?)
  {
    SimpleGroupsOk(configured, ms, cast);
    CompositeGroupsOk(Rows(ms), cast);
    RowsCastOk(ms, cast);
  }

  /** Some group from position `from` on is the Composite group of `key` and
      holds `tuple`. */
  predicate HoldsTuple(groups: seq<ColumnGroup>, from: nat, key: seq<string>, tuple: seq<Value>) {
    exists j :: from <= j < |groups| &&
      groups[j].CompositeGroup? && groups[j].columns == key && tuple in groups[j].tuples
  }

  /** Every applicable composite match appears in the Composite group of its
      sorted column list, as its values cast and put in that column order. */
  lemma CompositeComplete(configured: seq<string>, cast: (Raw, string) -> Result<Value>, ms: seq<DeletionMatch>, m: DeletionMatch)
    requires ColumnGroups(configured, cast, ms).Ok? && m in ms && m.Composite?
    ensures CastRow(SortByColumn(m.pairs), cast).Ok?
    ensures HoldsTuple(ColumnGroups(configured, cast, ms).value, SimpleCount(configured, ms),
      Key(SortByColumn(m.pairs)), CastRow(SortByColumn(m.pairs), cast).value)
  {
    var r := ColumnGroups(configured, cast, ms).value;
    var rows := Rows(ms);
    var keys := Keys(rows);
    var n := SimpleCount(configured, ms);
    var row := SortByColumn(m.pairs);
    assert row in rows;
    assert Key(row) in keys;
    var j := FirstIndex(keys, Key(row));
    var group := WithKey(rows, keys[j]);
    assert row in group;
    var g := CompositeGroupFor(keys[j], rows, cast);
    ColumnGroupsComposite(configured, cast, ms, j);
    var i := FirstIndex(group, row);
    assert g.value.tuples[i] == CastRow(row, cast).value;
    assert n <= n + j < |r| && r[n + j].CompositeGroup? && r[n + j].columns == Key(row);
  }

  /** The Composite groups have pairwise different column lists, each sorted. */
  lemma CompositeKeys(configured: seq<string>, cast: (Raw, string) -> Result<Value>, ms: seq<DeletionMatch>)
    requires ColumnGroups(configured, cast, ms).Ok?
    ensures var r := ColumnGroups(configured, cast, ms).value;
      forall j :: SimpleCount(configured, ms) <= j < |r| ==> r[j].CompositeGroup?
    ensures var r := ColumnGroups(configured, cast, ms).value;
      var n := SimpleCount(configured, ms);
      (forall j, k :: n <= j < k < |r| ==> r[j].columns != r[k].columns) &&
      (forall j :: n <= j < |r| ==>
        forall a, b :: 0 <= a < b < |r[j].columns| ==> LessEq(r[j].columns[a], r[j].columns[b]))
  {
    var r := ColumnGroups(configured, cast, ms).value;
    var n := SimpleCount(configured, ms);
    var rows := Rows(ms);
    var keys := Keys(rows);
    ColumnGroupsLength(configured, cast, ms);
    forall j | n <= j < |r|
      ensures r[j].CompositeGroup? && r[j].columns == keys[j - n]
    {
      ColumnGroupsComposite(configured, cast, ms, j - n);
    }
    forall j | n <= j < |r|
      ensures forall a, b :: 0 <= a < b < |r[j].columns| ==> LessEq(r[j].columns[a], r[j].columns[b])
    {
      KeySorted(rows, keys[j - n]);
    }
  }

  /** Every column list is sorted, being the columns of a sorted row. */
  lemma KeySorted(rows: seq<seq<ColumnValue>>, k: seq<string>)
    requires forall row :: row in rows ==> SortedByColumn(row)
    requires k in Keys(rows)
    ensures forall a, b :: 0 <= a < b < |k| ==> LessEq(k[a], k[b])
  {
    var i := KeyOrigin(rows, k);
    assert rows[i] in rows;
    assert forall a :: 0 <= a < |rows[i]| ==> k[a] == rows[i][a].column;
  }

  /** No groups at all exactly when there is no composite match and either no
      simple match or no configured column. */
  lemma ColumnGroupsEmpty(configured: seq<string>, cast: (Raw, string) -> Result<Value>, ms: seq<DeletionMatch>)
    requires ColumnGroups(configured, cast, ms).Ok?
    ensures ColumnGroups(configured, cast, ms).value == [] <==>
      (configured == [] || forall m :: m in ms ==> !m.Simple?) && forall m :: m in ms ==> !m.Composite?
  {
    ColumnGroupsLength(configured, cast, ms);
    NoSimpleIds(ms);
    NoKeys(ms);
  }

  lemma NoSimpleIds(ms: seq<DeletionMatch>)
    ensures SimpleIds(ms) == [] <==> forall m :: m in ms ==> !m.Simple?
  {
    var ids := SimpleIds(ms);
    if ids != [] {
      var j := SimpleIdOrigin(ms, ids[0]);
      assert ms[j] in ms && ms[j].Simple?;
    }
  }

  lemma NoKeys(ms: seq<DeletionMatch>)
    ensures Keys(Rows(ms)) == [] <==> forall m :: m in ms ==> !m.Composite?
  {
    var rows := Rows(ms);
    var keys := Keys(rows);
    if keys != [] {
      var i := KeyOrigin(rows, keys[0]);
      var j := RowOrigin(ms, rows[i]);
      assert ms[j] in ms && ms[j].Composite?;
    }
    if exists m :: m in ms && m.Composite? {
      var m :| m in ms && m.Composite?;
      assert SortByColumn(m.pairs) in rows;
      assert Key(SortByColumn(m.pairs)) in keys;
    }
  }
}
