/** `generate_athena_queries`: one query record per catalog partition of the
    data mapper's table, all carrying the same column groups, or a single
    record for an unpartitioned table, or none when no match applies or the
    matches make no column group. */
module Assembler {
  import opened Outcomes
  import opened Lists
  import opened Resolver
  import opened Caster
  import opened Classifier

  /** The fields of a data mapper the generator reads. */
  datatype DataMapper = DataMapper(
    id: string,
    executor: string,
    columns: seq<string>,
    format: string,
    database: string,
    table: string,
    roleArn: Option<string>,
    deleteOldVersions: Option<bool>)

  /** What the generator reads of the catalog table: its columns and its partition keys. */
  datatype Table = Table(columns: seq<Column>, partitionKeys: seq<Column>)

  /** A catalog partition: one value per partition key, in key order. */
  datatype Partition = Partition(values: seq<string>)

  datatype PartitionValue = PartitionValue(key: string, value: Value)

  /** One query message. */
  datatype Query = Query(
    dataMapperId: string,
    executor: string,
    format: string,
    database: string,
    table: string,
    columns: seq<ColumnGroup>,
    partitionKeys: seq<PartitionValue>,
    roleArn: Option<string>,
    deleteOldVersions: bool)

  /** The catalog guarantees that every partition has a value for each key. */
  predicate Aligned(table: Table, partitions: seq<Partition>) {
    table.partitionKeys != [] ==>
      forall i :: 0 <= i < |partitions| ==> |partitions[i].values| == |table.partitionKeys|
  }

  /** Casting against the table's columns. */
  function TableCast(cols: seq<Column>): (Raw, string) -> Result<Value> {
    (v: Raw, id: string) => Cast(v, id, cols)
  }

  /** The key/value pairs of one partition, in key order, each value cast to
      its key's type. */
  function PartitionValues(keys: seq<Column>, values: seq<string>, all: seq<Column>): (r: Result<seq<PartitionValue>>)
    requires |values| == |keys|
    ensures r.Ok? <==> forall i {:trigger Cast(RawStr(values[i]), keys[i].name, all)} :: 0 <= i < |keys| ==>
      Cast(RawStr(values[i]), keys[i].name, all).Ok?
    ensures r.Ok? ==> |r.value| == |keys|
    ensures r.Ok? ==> forall i {:trigger r.value[i]} :: 0 <= i < |keys| ==>
      r.value[i] == PartitionValue(keys[i].name, Cast(RawStr(values[i]), keys[i].name, all).value)
  {
    if keys == [] then Ok([])
    else
      var v :- Cast(RawStr(values[0]), keys[0].name, all);
      var rest :- PartitionValues(keys[1..], values[1..], all);
      Ok([PartitionValue(keys[0].name, v)] + rest)
  }

  /** The record for one partition (or for the whole unpartitioned table).
      `DeleteOldVersions` defaults to true; `RoleArn` is copied when present. */
  function QueryFor(dm: DataMapper, groups: seq<ColumnGroup>, kvs: seq<PartitionValue>): (q: Query)
    ensures q.columns == groups && q.partitionKeys == kvs
    ensures q.dataMapperId == dm.id && q.executor == dm.executor && q.format == dm.format
    ensures q.database == dm.database && q.table == dm.table && q.roleArn == dm.roleArn
    ensures q.deleteOldVersions <==> dm.deleteOldVersions != Some(false)
  {
    Query(dm.id, dm.executor, dm.format, dm.database, dm.table, groups, kvs, dm.roleArn,
          match dm.deleteOldVersions
          case Some(b) => b
          case None => true)
  }

  /** One record per partition, in catalog order. */
  function PartitionQueries(dm: DataMapper, groups: seq<ColumnGroup>, table: Table, partitions: seq<Partition>): (r: Result<seq<Query>>)
    requires table.partitionKeys != [] && Aligned(table, partitions)
    ensures r.Ok? <==> forall i :: 0 <= i < |partitions| ==>
      PartitionValues(table.partitionKeys, partitions[i].values, table.partitionKeys).Ok?
    ensures r.Ok? ==> |r.value| == |partitions|
    ensures r.Ok? ==> forall i :: 0 <= i < |partitions| ==>
      r.value[i] == QueryFor(dm, groups, PartitionValues(table.partitionKeys, partitions[i].values, table.partitionKeys).value)
  {
    if partitions == [] then Ok([])
    else
      var kvs :- PartitionValues(table.partitionKeys, partitions[0].values, table.partitionKeys);
      var rest :- PartitionQueries(dm, groups, table, partitions[1..]);
      assert forall i :: 1 <= i < |partitions| ==> partitions[1..][i - 1] == partitions[i];
      Ok([QueryFor(dm, groups, kvs)] + rest)
  }

  /** The queries of one data mapper for the deletion queue `queue`. The
      partitions are looked at only once there is a column group to query. */
  function GenerateAthenaQueries(dm: DataMapper, table: Table, partitions: seq<Partition>, queue: seq<DeletionMatch>): (r: Result<seq<Query>>)
    requires Aligned(table, partitions)
    ensures Applicable(queue, dm.id) == [] ==> r == Ok([])
    ensures r.Ok? && table.partitionKeys == [] ==> |r.value| <= 1
  {
    var ms := Applicable(queue, dm.id);
    if ms == [] then Ok([])
    else
      var groups :- ColumnGroups(dm.columns, TableCast(table.columns), ms);
      if groups == [] then Ok([])
      else if table.partitionKeys == [] then Ok([QueryFor(dm, groups, [])])
      else PartitionQueries(dm, groups, table, partitions)
  }

  /** The column groups of the data mapper for the queue. */
  function Groups(dm: DataMapper, table: Table, queue: seq<DeletionMatch>): Result<seq<ColumnGroup>> {
    ColumnGroups(dm.columns, TableCast(table.columns), Applicable(queue, dm.id))
  }

  /** Whether the applicable matches make at least one column group: a
      composite match, or a simple match and a configured column. */
  predicate HasGroups(columns: seq<string>, ms: seq<DeletionMatch>) {
    (exists m :: m in ms && m.Composite?) || (columns != [] && exists m :: m in ms && m.Simple?)
  }

  /** The executor check of the handler: only Athena queries can be generated. */
  function QueriesFor(dm: DataMapper, table: Table, partitions: seq<Partition>, queue: seq<DeletionMatch>): (r: Result<seq<Query>>)
    requires Aligned(table, partitions)
    ensures dm.executor != "athena" ==> r == Err(UnsupportedExecutor(dm.executor))
    ensures dm.executor == "athena" ==> r == GenerateAthenaQueries(dm, table, partitions, queue)
  {
    if dm.executor == "athena" then GenerateAthenaQueries(dm, table, partitions, queue)
    else Err(UnsupportedExecutor(dm.executor))
  }

  // ---------------------------------------------------------------------
  // What the generator promises.

  /** When no queued match applies to the data mapper, there is nothing to
      query, partitioned table or not. */
  lemma NoApplicableMatches(dm: DataMapper, table: Table, partitions: seq<Partition>, queue: seq<DeletionMatch>)
    requires Aligned(table, partitions)
    requires forall i :: 0 <= i < |queue| ==> !InScope(queue[i], dm.id)
    ensures GenerateAthenaQueries(dm, table, partitions, queue) == Ok([])
  {
  }

  /** There is nothing to query exactly when no match applies, the applicable
      matches make no column group, or the table is partitioned but has no
      partition. */
  lemma NoRecords(dm: DataMapper, table: Table, partitions: seq<Partition>, queue: seq<DeletionMatch>)
    requires Aligned(table, partitions)
    requires GenerateAthenaQueries(dm, table, partitions, queue).Ok?
    ensures var ms := Applicable(queue, dm.id);
      GenerateAthenaQueries(dm, table, partitions, queue).value == [] <==>
        !HasGroups(dm.columns, ms) || (table.partitionKeys != [] && partitions == [])
  {
    var ms := Applicable(queue, dm.id);
    if ms != [] {
      ColumnGroupsEmpty(dm.columns, TableCast(table.columns), ms);
    } else {
      assert !HasGroups(dm.columns, ms);
    }
  }

  /** An unpartitioned table gets exactly one record, with no partition keys,
      when there is a column group to query. */
  lemma Unpartitioned(dm: DataMapper, table: Table, partitions: seq<Partition>, queue: seq<DeletionMatch>)
    requires Aligned(table, partitions) && table.partitionKeys == []
    requires Applicable(queue, dm.id) != []
    requires GenerateAthenaQueries(dm, table, partitions, queue).Ok?
    ensures Groups(dm, table, queue).Ok?
    ensures var r := GenerateAthenaQueries(dm, table, partitions, queue).value;
      var g := Groups(dm, table, queue).value;
      (g == [] ==> r == []) &&
      (g != [] ==> |r| == 1 && r[0].partitionKeys == [] && r[0].columns == g)
  {
  }

  /** A partitioned table gets one record per partition, in catalog order,
      each with that partition's values cast to the key types, and all with
      the same column groups. */
  lemma Partitioned(dm: DataMapper, table: Table, partitions: seq<Partition>, queue: seq<DeletionMatch>, i: nat)
    requires Aligned(table, partitions) && table.partitionKeys != []
    requires Applicable(queue, dm.id) != []
    requires GenerateAthenaQueries(dm, table, partitions, queue).Ok?
    requires i < |partitions|
    ensures Groups(dm, table, queue).Ok?
    ensures Groups(dm, table, queue).value != [] ==>
      var r := GenerateAthenaQueries(dm, table, partitions, queue).value;
      var keys := table.partitionKeys;
      |r| == |partitions| &&
      r[i].columns == Groups(dm, table, queue).value &&
      |r[i].partitionKeys| == |keys| &&
      forall k :: 0 <= k < |keys| ==>
        r[i].partitionKeys[k] == PartitionValue(keys[k].name, Cast(RawStr(partitions[i].values[k]), keys[k].name, keys).value)
  {
    var keys := table.partitionKeys;
    if Groups(dm, table, queue).value != [] {
      assert PartitionValues(keys, partitions[i].values, keys).Ok?;
    }
  }

  /** Every record carries the same non-empty column groups and describes
      the data mapper: its id, executor, format, database and table, its role
      if it has one, and whether old object versions are deleted (by default
      they are). */
  lemma RecordsDescribeMapper(dm: DataMapper, table: Table, partitions: seq<Partition>, queue: seq<DeletionMatch>, q: Query)
    requires Aligned(table, partitions)
    requires GenerateAthenaQueries(dm, table, partitions, queue).Ok?
    requires q in GenerateAthenaQueries(dm, table, partitions, queue).value
    ensures Groups(dm, table, queue).Ok? && q.columns == Groups(dm, table, queue).value && q.columns != []
    ensures q.dataMapperId == dm.id && q.executor == dm.executor && q.format == dm.format
    ensures q.database == dm.database && q.table == dm.table && q.roleArn == dm.roleArn
    ensures q.deleteOldVersions <==> dm.deleteOldVersions != Some(false)
  {
    var r := GenerateAthenaQueries(dm, table, partitions, queue).value;
    var i := FirstIndex(r, q);
    if table.partitionKeys != [] {
      assert Groups(dm, table, queue).value != [];
      var groups := ColumnGroups(dm.columns, TableCast(table.columns), Applicable(queue, dm.id)).value;
      assert r[i] == QueryFor(dm, groups, PartitionValues(table.partitionKeys, partitions[i].values, table.partitionKeys).value);
    }
  }

  /** Generation fails exactly when some applicable match holds a value that
      does not cast to its column, or, for a partitioned table with a column
      group to query, some partition value does not cast to its key's type. */
  lemma GenerateOk(dm: DataMapper, table: Table, partitions: seq<Partition>, queue: seq<DeletionMatch>)
    requires Aligned(table, partitions)
    ensures var ms := Applicable(queue, dm.id);
      var keys := table.partitionKeys;
      GenerateAthenaQueries(dm, table, partitions, queue).Ok? <==>
        ms == [] ||
        ((forall m, c :: m in ms && m.Simple? && c in dm.columns ==> Cast(m.matchId, c, table.columns).Ok?) &&
         (forall m, p :: m in ms && m.Composite? && p in m.pairs ==> Cast(p.value, p.column, table.columns).Ok?) &&
         (keys != [] && HasGroups(dm.columns, ms) ==> forall i, k :: 0 <= i < |partitions| && 0 <= k < |keys| ==>
            Cast(RawStr(partitions[i].values[k]), keys[k].name, keys).Ok?))
  {
    var ms := Applicable(queue, dm.id);
    ColumnGroupsOk(dm.columns, TableCast(table.columns), ms);
    if ColumnGroups(dm.columns, TableCast(table.columns), ms).Ok? {
      ColumnGroupsEmpty(dm.columns, TableCast(table.columns), ms);
    }
  }
}
