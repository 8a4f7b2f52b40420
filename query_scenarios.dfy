/** The documented behaviour of `generate_athena_queries` on the shapes of
    input its cases use, derived from the general properties of the model.
    Names, ids and partition values are parameters. */
module QueryScenarios {
  import opened Outcomes
  import opened Decimal
  import opened Lists
  import opened Schema
  import opened Resolver
  import opened Caster
  import opened Classifier
  import opened Assembler

  /** Every name is a plain id of a `string` column of `cols`. */
  predicate StringColumns(names: seq<string>, cols: seq<Column>) {
    forall i :: 0 <= i < |names| ==> '.' !in names[i] && FindColumn(cols, names[i]) == Some(Column(names[i], "string"))
  }

  /** Every partition key is a `string` key, found under its own name. */
  predicate StringKeys(keys: seq<Column>) {
    forall k :: 0 <= k < |keys| ==> '.' !in keys[k].name && FindColumn(keys, keys[k].name) == Some(Column(keys[k].name, "string"))
  }

  /** Queue items `{"MatchId": id}`, all with the same `Type` flag and scope. */
  function SimpleQueue(ids: seq<Raw>, typed: bool, scope: Option<seq<string>>): (q: seq<DeletionMatch>)
    ensures |q| == |ids| && forall i :: 0 <= i < |ids| ==> q[i] == Simple(ids[i], typed, scope)
  {
    seq(|ids|, i requires 0 <= i < |ids| => Simple(ids[i], typed, scope))
  }

  /** The ids as the text a string column holds. */
  function AsText(ids: seq<Raw>): (r: seq<Value>)
    ensures |r| == |ids| && forall i :: 0 <= i < |ids| ==> r[i] == Str(StrOf(ids[i]))
  {
    seq(|ids|, i requires 0 <= i < |ids| => Str(StrOf(ids[i])))
  }

  /** One Simple group per column, each holding every id as text. */
  function TextGroups(names: seq<string>, ids: seq<Raw>): (r: seq<ColumnGroup>)
    ensures |r| == |names| && forall i :: 0 <= i < |names| ==> r[i] == SimpleGroup(names[i], AsText(ids))
  {
    seq(|names|, i requires 0 <= i < |names| => SimpleGroup(names[i], AsText(ids)))
  }

  /** The key/value pairs of a partition of string keys. */
  function TextPartition(keys: seq<Column>, values: seq<string>): (r: seq<PartitionValue>)
    requires |values| == |keys|
    ensures |r| == |keys| && forall k :: 0 <= k < |keys| ==> r[k] == PartitionValue(keys[k].name, Str(values[k]))
  {
    seq(|keys|, k requires 0 <= k < |keys| => PartitionValue(keys[k].name, Str(values[k])))
  }

  /** A string column takes any value as its text. */
  lemma StringCast(v: Raw, name: string, cols: seq<Column>)
    requires '.' !in name && FindColumn(cols, name) == Some(Column(name, "string"))
    ensures Cast(v, name, cols) == Ok(Str(StrOf(v)))
  {
    assert KindName(String) == "string";
    ResolvePlain(cols, name, "string");
  }

  /** Distinct unscoped simple matches all apply, in queue order. */
  lemma ApplicableSimpleQueue(ids: seq<Raw>, typed: bool, scope: Option<seq<string>>, mapperId: string)
    requires Distinct(ids) && ids != [] && InScope(Simple(ids[0], typed, scope), mapperId)
    ensures Applicable(SimpleQueue(ids, typed, scope), mapperId) == SimpleQueue(ids, typed, scope)
  {
    var q := SimpleQueue(ids, typed, scope);
    FilterAll(q, m => InScope(m, mapperId));
    DedupDistinct(q);
  }

  lemma {:induction false} SimpleQueueParts(ids: seq<Raw>, typed: bool, scope: Option<seq<string>>)
    ensures SimpleIds(SimpleQueue(ids, typed, scope)) == ids && Rows(SimpleQueue(ids, typed, scope)) == []
  {
    if ids != [] {
      SimpleQueueParts(ids[1..], typed, scope);
      assert SimpleQueue(ids, typed, scope)[1..] == SimpleQueue(ids[1..], typed, scope);
    }
  }

  /** Simple matches on string columns: every column gets a Simple group of
      every id as text, and there are no Composite groups. */
  lemma TextColumnGroups(names: seq<string>, cols: seq<Column>, ids: seq<Raw>, typed: bool, scope: Option<seq<string>>)
    requires StringColumns(names, cols) && ids != []
    ensures ColumnGroups(names, TableCast(cols), SimpleQueue(ids, typed, scope)) == Ok(TextGroups(names, ids))
  {
    var cast := TableCast(cols);
    SimpleQueueParts(ids, typed, scope);
    forall i | 0 <= i < |names|
      ensures SimpleGroupFor(names[i], ids, cast) == Ok(SimpleGroup(names[i], AsText(ids)))
    {
      TextSimpleGroup(names[i], cols, ids);
    }
    var simple := SimpleGroups(names, ids, cast);
    assert simple.Ok?;
    assert simple.value == TextGroups(names, ids);
    assert Keys([]) == [];
    assert CompositeGroups([], cast) == Ok([]);
    assert simple.value + [] == TextGroups(names, ids);
  }

  lemma TextSimpleGroup(name: string, cols: seq<Column>, ids: seq<Raw>)
    requires '.' !in name && FindColumn(cols, name) == Some(Column(name, "string"))
    ensures SimpleGroupFor(name, ids, TableCast(cols)) == Ok(SimpleGroup(name, AsText(ids)))
  {
    var cast := TableCast(cols);
    forall k | 0 <= k < |ids|
      ensures cast(ids[k], name) == Ok(Str(StrOf(ids[k])))
    {
      StringCast(ids[k], name, cols);
    }
    var r := SimpleGroupFor(name, ids, cast);
    assert r.Ok?;
    assert r.value.ids == AsText(ids);
  }

  /** A partition of string keys keeps its values as text. */
  lemma TextPartitionValues(keys: seq<Column>, values: seq<string>)
    requires StringKeys(keys) && |values| == |keys|
    ensures PartitionValues(keys, values, keys) == Ok(TextPartition(keys, values))
  {
    forall k | 0 <= k < |keys|
      ensures Cast(RawStr(values[k]), keys[k].name, keys) == Ok(Str(values[k]))
    {
      StringCast(RawStr(values[k]), keys[k].name, keys);
    }
    var r := PartitionValues(keys, values, keys);
    assert r.Ok?;
    assert r.value == TextPartition(keys, values);
  }

  /** Distinct simple matches that apply to the data mapper, on string
      columns and string partition keys: an unpartitioned table gets one
      record without partition keys, a partitioned one a record per partition
      in catalog order with that partition's key/value pairs, and every
      record carries the same groups, one per configured column in configured
      order, each holding every id as text (an int id as its decimal text).
      A data mapper without configured columns gets no record. */
  lemma SimpleMatchQueries(dm: DataMapper, table: Table, partitions: seq<Partition>,
                           ids: seq<Raw>, typed: bool, scope: Option<seq<string>>)
    requires Distinct(ids) && ids != [] && InScope(Simple(ids[0], typed, scope), dm.id)
    requires StringColumns(dm.columns, table.columns) && StringKeys(table.partitionKeys)
    requires Aligned(table, partitions)
    ensures dm.columns == [] ==>
      GenerateAthenaQueries(dm, table, partitions, SimpleQueue(ids, typed, scope)) == Ok([])
    ensures dm.columns != [] && table.partitionKeys == [] ==>
      GenerateAthenaQueries(dm, table, partitions, SimpleQueue(ids, typed, scope)) ==
        Ok([QueryFor(dm, TextGroups(dm.columns, ids), [])])
    ensures dm.columns != [] && table.partitionKeys != [] ==>
      var r := GenerateAthenaQueries(dm, table, partitions, SimpleQueue(ids, typed, scope));
      r.Ok? && |r.value| == |partitions| &&
      forall j :: 0 <= j < |partitions| ==>
        r.value[j] == QueryFor(dm, TextGroups(dm.columns, ids), TextPartition(table.partitionKeys, partitions[j].values))
  {
    SimpleQueueGroups(dm, table.columns, ids, typed, scope);
    if dm.columns != [] && table.partitionKeys != [] {
      TextPartitionQueries(dm, TextGroups(dm.columns, ids), table, partitions);
    }
  }

  /** The groups of a queue of distinct applicable simple matches. */
  lemma SimpleQueueGroups(dm: DataMapper, cols: seq<Column>, ids: seq<Raw>, typed: bool, scope: Option<seq<string>>)
    requires Distinct(ids) && ids != [] && InScope(Simple(ids[0], typed, scope), dm.id)
    requires StringColumns(dm.columns, cols)
    ensures var ms := Applicable(SimpleQueue(ids, typed, scope), dm.id);
      ms != [] && ColumnGroups(dm.columns, TableCast(cols), ms) == Ok(TextGroups(dm.columns, ids))
  {
    var q := SimpleQueue(ids, typed, scope);
    ApplicableSimpleQueue(ids, typed, scope, dm.id);
    TextColumnGroups(dm.columns, cols, ids, typed, scope);
  }

  /** One record per partition of string keys, each with its values as text. */
  lemma TextPartitionQueries(dm: DataMapper, groups: seq<ColumnGroup>, table: Table, partitions: seq<Partition>)
    requires table.partitionKeys != [] && Aligned(table, partitions) && StringKeys(table.partitionKeys)
    ensures var r := PartitionQueries(dm, groups, table, partitions);
      r.Ok? && |r.value| == |partitions| &&
      forall j :: 0 <= j < |partitions| ==>
        r.value[j] == QueryFor(dm, groups, TextPartition(table.partitionKeys, partitions[j].values))
  {
    var keys := table.partitionKeys;
    forall j | 0 <= j < |partitions|
      ensures PartitionValues(keys, partitions[j].values, keys) == Ok(TextPartition(keys, partitions[j].values))
    {
      TextPartitionValues(keys, partitions[j].values);
    }
  }

  /** An integer column (`int`, `bigint`, `smallint`, `tinyint`) reads a
      decimal text, or an integer, as that integer. */
  lemma IntCast(n: int, name: string, ty: string, cols: seq<Column>)
    requires '.' !in name && FindColumn(cols, name) == Some(Column(name, ty))
    requires KindOf(ty).Some? && IsIntegerKind(KindOf(ty).value)
    ensures Cast(RawStr(ShowInt(n)), name, cols) == Ok(Integer(n))
    ensures Cast(RawInt(n), name, cols) == Ok(Integer(n))
  {
    var k := KindOf(ty).value;
    ResolvePlain(cols, name, ty);
    assert ResolveKind(cols, name) == Ok(k);
    ParseShowInt(n);
    assert CastToKind(RawStr(ShowInt(n)), k) == Ok(Integer(n));
  }

  /** A partition key of an integer type carries its value as an integer. */
  lemma IntPartitionValue(key: string, ty: string, n: int)
    requires '.' !in key && KindOf(ty).Some? && IsIntegerKind(KindOf(ty).value)
    ensures var keys := [Column(key, ty)];
      PartitionValues(keys, [ShowInt(n)], keys) == Ok([PartitionValue(key, Integer(n))])
  {
    var keys := [Column(key, ty)];
    IntCast(n, key, ty, keys);
    var r := PartitionValues(keys, [ShowInt(n)], keys);
    assert r.Ok?;
    assert r.value == [PartitionValue(key, Integer(n))];
  }


  /** The int-partition case: one partition of an integer key; the record
      carries the partition value as an integer. */
  lemma IntPartitionQuery(dm: DataMapper, cols: seq<Column>, key: string, ty: string, n: int, ids: seq<Raw>)
    requires Distinct(ids) && ids != [] && '.' !in key
    requires KindOf(ty).Some? && IsIntegerKind(KindOf(ty).value)
    requires StringColumns(dm.columns, cols) && dm.columns != []
    ensures var table := Table(cols, [Column(key, ty)]);
      GenerateAthenaQueries(dm, table, [Partition([ShowInt(n)])], SimpleQueue(ids, false, None)) ==
        Ok([QueryFor(dm, TextGroups(dm.columns, ids), [PartitionValue(key, Integer(n))])])
  {
    SimpleQueueGroups(dm, cols, ids, false, None);
    IntPartitionRecord(dm, TextGroups(dm.columns, ids), cols, key, ty, n);
  }

  lemma IntPartitionRecord(dm: DataMapper, groups: seq<ColumnGroup>, cols: seq<Column>, key: string, ty: string, n: int)
    requires '.' !in key && KindOf(ty).Some? && IsIntegerKind(KindOf(ty).value)
    ensures PartitionQueries(dm, groups, Table(cols, [Column(key, ty)]), [Partition([ShowInt(n)])]) ==
      Ok([QueryFor(dm, groups, [PartitionValue(key, Integer(n))])])
  {
    var keys := [Column(key, ty)];
    IntPartitionValue(key, ty, n);
    OnePartition(dm, groups, Table(cols, keys), Partition([ShowInt(n)]));
  }

  /** A partitioned table with a single partition gets a single record. */
  lemma OnePartition(dm: DataMapper, groups: seq<ColumnGroup>, table: Table, p: Partition)
    requires table.partitionKeys != [] && |p.values| == |table.partitionKeys|
    requires PartitionValues(table.partitionKeys, p.values, table.partitionKeys).Ok?
    ensures Aligned(table, [p])
    ensures PartitionQueries(dm, groups, table, [p]) ==
      Ok([QueryFor(dm, groups, PartitionValues(table.partitionKeys, p.values, table.partitionKeys).value)])
  {
    var q := QueryFor(dm, groups, PartitionValues(table.partitionKeys, p.values, table.partitionKeys).value);
    var r := PartitionQueries(dm, groups, table, [p]);
    assert r.Ok?;
    assert r.value == [q];
  }

  /** The scope filter: a match scoped to another data mapper is dropped,
      and a match with an empty scope applies to every data mapper. */
  lemma ScopeFilter(mapperId: string, other: string, x: Raw, y: Raw)
    requires other != mapperId
    ensures Applicable([Simple(x, false, Some([other])), Simple(y, false, Some([]))], mapperId) ==
      SimpleQueue([y], false, Some([]))
  {
    var m1, m2 := Simple(x, false, Some([other])), Simple(y, false, Some([]));
    var p := m => InScope(m, mapperId);
    FilterDrop([], m1, p, []);
    FilterKeep([] + [m1], m2, p, []);
    assert [] + [m1] + [m2] == [m1, m2];
    DedupAdd([], m2, []);
    assert [] + [m2] == [m2] == SimpleQueue([y], false, Some([]));
  }

  /** The filtering case end to end: only the unscoped id is queried. */
  lemma ScopeFilterQueries(dm: DataMapper, table: Table, partitions: seq<Partition>, other: string, x: Raw, y: Raw)
    requires other != dm.id
    requires StringColumns(dm.columns, table.columns) && StringKeys(table.partitionKeys)
    requires Aligned(table, partitions)
    ensures dm.columns != [] && table.partitionKeys != [] ==>
      var r := GenerateAthenaQueries(dm, table, partitions, [Simple(x, false, Some([other])), Simple(y, false, Some([]))]);
      r.Ok? && |r.value| == |partitions| &&
      forall j :: 0 <= j < |partitions| ==>
        r.value[j] == QueryFor(dm, TextGroups(dm.columns, [y]), TextPartition(table.partitionKeys, partitions[j].values))
  {
    ScopeFilterSame(dm, table, partitions, other, x, y);
    SimpleMatchQueries(dm, table, partitions, [y], false, Some([]));
  }

  lemma ScopeFilterSame(dm: DataMapper, table: Table, partitions: seq<Partition>, other: string, x: Raw, y: Raw)
    requires other != dm.id && Aligned(table, partitions)
    ensures GenerateAthenaQueries(dm, table, partitions, [Simple(x, false, Some([other])), Simple(y, false, Some([]))]) ==
      GenerateAthenaQueries(dm, table, partitions, SimpleQueue([y], false, Some([])))
  {
    ScopeFilter(dm.id, other, x, y);
    ApplicableSimpleQueue([y], false, Some([]), dm.id);
    SameApplicable(dm, table, partitions, [Simple(x, false, Some([other])), Simple(y, false, Some([]))],
                   SimpleQueue([y], false, Some([])));
  }

  /** The generator sees the queue only through the matches that apply. */
  lemma SameApplicable(dm: DataMapper, table: Table, partitions: seq<Partition>, q1: seq<DeletionMatch>, q2: seq<DeletionMatch>)
    requires Aligned(table, partitions) && Applicable(q1, dm.id) == Applicable(q2, dm.id)
    ensures GenerateAthenaQueries(dm, table, partitions, q1) == GenerateAthenaQueries(dm, table, partitions, q2)
  {
  }

  /** A queue whose only match is scoped to another data mapper yields no
      record, partitioned table or not. */
  lemma OtherMapperOnly(dm: DataMapper, table: Table, partitions: seq<Partition>, other: string, x: Raw)
    requires other != dm.id && Aligned(table, partitions)
    ensures GenerateAthenaQueries(dm, table, partitions, [Simple(x, false, Some([other]))]) == Ok([])
  {
    NoApplicableMatches(dm, table, partitions, [Simple(x, false, Some([other]))]);
  }
}
