/** How the classifier groups the queues of the composite and mixed cases.
    Column names, ids and values are parameters; what the cases rely on about
    them (which names sort first, which values differ) is stated as
    requirements. */
module CompositeScenarios {
  import opened Outcomes
  import opened Text
  import opened Lists
  import opened Decimal
  import opened Resolver
  import opened Caster
  import opened Classifier
  import opened Assembler
  import opened QueryScenarios

  /** A composite match on two columns. */
  function Pair(c1: string, v1: Raw, c2: string, v2: Raw, scope: Option<seq<string>>): (m: DeletionMatch)
    ensures m.Composite? && m.pairs == [ColumnValue(c1, v1), ColumnValue(c2, v2)] && m.dataMappers == scope
  {
    Composite([ColumnValue(c1, v1), ColumnValue(c2, v2)], scope)
  }

  /** Two pairs already in column order stay as they are. */
  lemma SortInOrder(p: ColumnValue, q: ColumnValue)
    requires LessEq(p.column, q.column)
    ensures SortByColumn([p, q]) == [p, q]
  {
    assert [p, q][1..] == [q];
    assert [q][1..] == [];
  }

  /** Two pairs out of column order are swapped. */
  lemma SortSwapped(p: ColumnValue, q: ColumnValue)
    requires LessEq(q.column, p.column) && p.column != q.column
    ensures SortByColumn([p, q]) == [q, p]
  {
    assert [p, q][1..] == [q];
    assert [q][1..] == [];
    assert !LessEq(p.column, q.column) by {
      if LessEq(p.column, q.column) {
        LessEqAntisymmetric(p.column, q.column);
      }
    }
    assert Insert(p, [q]) == [q] + Insert(p, []);
  }

  /** A queue holding one composite match on two columns gets one Composite
      group: the columns in sorted order and the one tuple of cast values. */
  lemma OneComposite(configured: seq<string>, cast: (Raw, string) -> Result<Value>,
                     f: string, x: Raw, l: string, y: Raw, scope: Option<seq<string>>)
    requires LessEq(f, l)
    requires cast(x, f).Ok? && cast(y, l).Ok?
    ensures ColumnGroups(configured, cast, [Pair(f, x, l, y, scope)]) ==
      Ok([CompositeGroup([f, l], [[cast(x, f).value, cast(y, l).value]])])
  {
    var m := Pair(f, x, l, y, scope);
    var row := [ColumnValue(f, x), ColumnValue(l, y)];
    SortInOrder(row[0], row[1]);
    assert [m][1..] == [];
    assert SimpleIds([m]) == [];
    assert Rows([m]) == [row];
    KeyPair(row[0], row[1]);
    CastPair(row[0], row[1], cast);
    OneRowGroup(row, cast);
    assert SimpleGroups(configured, [], cast) == Ok([]);
    var r := ColumnGroups(configured, cast, [m]);
    assert r.Ok?;
    assert r.value == [] + [CompositeGroup(Key(row), [CastRow(row, cast).value])];
    assert Key(row) == [f, l];
    assert CastRow(row, cast).value == [cast(x, f).value, cast(y, l).value];
    assert r.value == [CompositeGroup([f, l], [[cast(x, f).value, cast(y, l).value]])];
  }

  /** A single row makes a single key, whose rows are that row. */
  lemma OneRow(row: seq<ColumnValue>)
    ensures Keys([row]) == [Key(row)] && WithKey([row], Key(row)) == [row]
  {
    assert AllKeys([row]) == [] + [Key(row)];
    DedupAdd([], Key(row), []);
    FilterAll([row], r => Key(r) == Key(row));
  }

  /** The tuple of a two-pair row. */
  lemma CastPair(p: ColumnValue, q: ColumnValue, cast: (Raw, string) -> Result<Value>)
    requires cast(p.value, p.column).Ok? && cast(q.value, q.column).Ok?
    ensures CastRow([p, q], cast) == Ok([cast(p.value, p.column).value, cast(q.value, q.column).value])
  {
    var r := CastRow([p, q], cast);
    assert r.Ok?;
    assert r.value == [cast(p.value, p.column).value, cast(q.value, q.column).value];
  }

  /** A single row makes a single Composite group holding its tuple. */
  lemma OneRowGroup(row: seq<ColumnValue>, cast: (Raw, string) -> Result<Value>)
    requires CastRow(row, cast).Ok?
    ensures CompositeGroups([row], cast) == Ok([CompositeGroup(Key(row), [CastRow(row, cast).value])])
  {
    OneRow(row);
    var key := Key(row);
    var g := CompositeGroupFor(key, [row], cast);
    assert g.Ok?;
    assert g.value.tuples[0] == CastRow(row, cast).value;
    assert g.value.tuples == [CastRow(row, cast).value];
    var groups := CompositeGroups([row], cast);
    assert Keys([row])[0] == key;
    assert groups.Ok?;
    assert groups.value[0] == g.value;
    assert groups.value == [g.value];
  }

  // ---------------------------------------------------------------------
  // The mixed case: simple and composite matches in one queue, with repeats.

  /** The names and values of the mixed case: simple ids `a` and `b`; two
      composite matches on columns `f` and `l` (values `j1`/`d` and `j2`/`d`)
      and one on `l` and `g` (values `s`/`n`), named out of column order. */
  datatype MixedCase = MixedCase(
    id: string, a: Raw, b: Raw,
    f: string, l: string, g: string,
    j1: Raw, j2: Raw, d: Raw, s: Raw, n: Raw)

  /** What the case relies on: the ids differ, the first two composite
      matches differ, `f` and `g` sort before `l`, and `f` differs from `g`. */
  predicate Separated(c: MixedCase) {
    c.a != c.b && c.j1 != c.j2 && c.f != c.g &&
    LessEq(c.f, c.l) && c.f != c.l && LessEq(c.g, c.l) && c.g != c.l
  }

  function Scope(c: MixedCase): Option<seq<string>> { Some([c.id]) }

  function First(c: MixedCase): DeletionMatch { Pair(c.f, c.j1, c.l, c.d, Scope(c)) }
  function Second(c: MixedCase): DeletionMatch { Pair(c.f, c.j2, c.l, c.d, Scope(c)) }
  function Third(c: MixedCase): DeletionMatch { Pair(c.l, c.s, c.g, c.n, Scope(c)) }

  /** The queue as sent: the second simple id and the second composite
      match are queued twice. */
  function MixedQueue(c: MixedCase): seq<DeletionMatch> {
    [Simple(c.a, true, None), Simple(c.b, true, None), Simple(c.b, true, None),
     First(c), Second(c), Second(c), Third(c)]
  }

  /** The queue with its repeats dropped. */
  function MixedKept(c: MixedCase): seq<DeletionMatch> {
    [Simple(c.a, true, None), Simple(c.b, true, None), First(c), Second(c), Third(c)]
  }

  /** The rows of the composite matches, each in column order. */
  function MixedRows(c: MixedCase): seq<seq<ColumnValue>> {
    [[ColumnValue(c.f, c.j1), ColumnValue(c.l, c.d)],
     [ColumnValue(c.f, c.j2), ColumnValue(c.l, c.d)],
     [ColumnValue(c.g, c.n), ColumnValue(c.l, c.s)]]
  }

  /** Every match applies, and each repeat is dropped where it recurs. */
  lemma MixedApplicable(c: MixedCase)
    requires Separated(c)
    ensures Applicable(MixedQueue(c), c.id) == MixedKept(c)
  {
    var q := MixedQueue(c);
    var p := m => InScope(m, c.id);
    assert forall i :: 0 <= i < |q| ==> p(q[i]);
    FilterAll(q, p);
    var c1, c2, c3 := q[3], q[4], q[6];
    assert c1 != c2 by { assert c1.pairs[0] != c2.pairs[0]; }
    assert c3 != c1 && c3 != c2 by { assert c3.pairs[0].column != c1.pairs[0].column; }
    DedupRepeats(q[0], q[1], c1, c2, c3);
  }

  /** Dedup of a queue whose second and fourth elements are queued twice in a row. */
  lemma DedupRepeats<T(!new)>(s1: T, s2: T, c1: T, c2: T, c3: T)
    requires s1 != s2 && s1 != c1 && s1 != c2 && s1 != c3
    requires s2 != c1 && s2 != c2 && s2 != c3
    requires c1 != c2 && c1 != c3 && c2 != c3
    ensures Dedup([s1, s2, s2, c1, c2, c2, c3]) == [s1, s2, c1, c2, c3]
  {
    var d := [s1, s2, c1, c2, c3];
    var q0: seq<T> := [];
    var q1 := q0 + [s1];
    var q2 := q1 + [s2];
    var q3 := q2 + [s2];
    var q4 := q3 + [c1];
    var q5 := q4 + [c2];
    var q6 := q5 + [c2];
    var q7 := q6 + [c3];
    var d1 := [s1];
    var d2 := d1 + [s2];
    var d4 := d2 + [c1];
    var d5 := d4 + [c2];
    var d7 := d5 + [c3];
    DedupAdd(q0, s1, []);
    assert [] + [s1] == d1;
    DedupAdd(q1, s2, d1);
    DedupKeep(q2, s2, d2);
    DedupAdd(q3, c1, d2);
    DedupAdd(q4, c2, d4);
    DedupKeep(q5, c2, d5);
    DedupAdd(q6, c3, d5);
    assert q7 == [s1, s2, s2, c1, c2, c2, c3];
    assert d7 == d;
  }

  /** The simple ids are `a` then `b`. */
  lemma MixedIds(c: MixedCase)
    ensures SimpleIds(MixedKept(c)) == [c.a, c.b]
  {
    var s1, s2 := Simple(c.a, true, None), Simple(c.b, true, None);
    var m1, m2, m3 := First(c), Second(c), Third(c);
    assert MixedKept(c) == [s1] + ([s2] + ([m1] + ([m2] + [m3])));
    SimpleIdsOne(s1);
    SimpleIdsOne(s2);
    SimpleIdsOne(m1);
    SimpleIdsOne(m2);
    SimpleIdsOne(m3);
    SimpleIdsAppend([m2], [m3]);
    SimpleIdsAppend([m1], [m2] + [m3]);
    SimpleIdsAppend([s2], [m1] + ([m2] + [m3]));
    SimpleIdsAppend([s1], [s2] + ([m1] + ([m2] + [m3])));
  }

  /** The rows are the composite matches in queue order, the third with its
      pairs swapped into column order. */
  lemma MixedRowsOf(c: MixedCase)
    requires Separated(c)
    ensures Rows(MixedKept(c)) == MixedRows(c)
  {
    var s1, s2 := Simple(c.a, true, None), Simple(c.b, true, None);
    var m1, m2, m3 := First(c), Second(c), Third(c);
    var rows := MixedRows(c);
    assert rows == [rows[0]] + ([rows[1]] + [rows[2]]);
    assert MixedKept(c) == [s1] + ([s2] + ([m1] + ([m2] + [m3])));
    MixedSorted(c);
    RowsOne(s1);
    RowsOne(s2);
    RowsOne(m1);
    RowsOne(m2);
    RowsOne(m3);
    RowsAppend([m2], [m3]);
    RowsAppend([m1], [m2] + [m3]);
    RowsAppend([s2], [m1] + ([m2] + [m3]));
    RowsAppend([s1], [s2] + ([m1] + ([m2] + [m3])));
  }

  /** Each composite match of the mixed case, sorted, is its row. */
  lemma MixedSorted(c: MixedCase)
    requires Separated(c)
    ensures SortByColumn(First(c).pairs) == MixedRows(c)[0]
    ensures SortByColumn(Second(c).pairs) == MixedRows(c)[1]
    ensures SortByColumn(Third(c).pairs) == MixedRows(c)[2]
  {
    SortInOrder(ColumnValue(c.f, c.j1), ColumnValue(c.l, c.d));
    SortInOrder(ColumnValue(c.f, c.j2), ColumnValue(c.l, c.d));
    SortSwapped(ColumnValue(c.l, c.s), ColumnValue(c.g, c.n));
  }

  /** The column lists, each once: `f, l` (first seen in the first row) then
      `g, l`; the first two rows have the first, the third row the second. */
  lemma MixedKeys(c: MixedCase)
    requires Separated(c)
    ensures Keys(MixedRows(c)) == [[c.f, c.l], [c.g, c.l]]
  {
    var rows := MixedRows(c);
    var k1, k2 := [c.f, c.l], [c.g, c.l];
    KeyPair(rows[0][0], rows[0][1]);
    KeyPair(rows[1][0], rows[1][1]);
    KeyPair(rows[2][0], rows[2][1]);
    assert AllKeys(rows) == [k1, k1, k2];
    assert k1 != k2 by { assert k1[0] != k2[0]; }
    DedupAdd([], k1, []);
    DedupKeep([] + [k1], k1, [] + [k1]);
    DedupAdd([] + [k1] + [k1], k2, [] + [k1]);
    assert [] + [k1] + [k1] + [k2] == [k1, k1, k2];
    assert [] + [k1] + [k2] == [k1, k2];
  }

  /** The column list of a two-pair row. Kept apart so that the scenario
      proofs need not unfold Key in their larger contexts. */
  lemma KeyPair(p: ColumnValue, q: ColumnValue)
    ensures Key([p, q]) == [p.column, q.column]
  {
  }

  /** The rows on `f, l` are the first two. */
  lemma MixedFirstRows(c: MixedCase)
    requires Separated(c)
    ensures var rows := MixedRows(c); WithKey(rows, [c.f, c.l]) == [rows[0], rows[1]]
  {
    var rows := MixedRows(c);
    var k1 := [c.f, c.l];
    KeyPair(rows[0][0], rows[0][1]);
    KeyPair(rows[1][0], rows[1][1]);
    KeyPair(rows[2][0], rows[2][1]);
    assert Key(rows[2]) != k1 by { assert Key(rows[2])[0] != k1[0]; }
    FilterFirstTwo(rows[0], rows[1], rows[2], row => Key(row) == k1);
  }

  /** The only row on `g, l` is the third. */
  lemma MixedThirdRow(c: MixedCase)
    requires Separated(c)
    ensures var rows := MixedRows(c); WithKey(rows, [c.g, c.l]) == [rows[2]]
  {
    var rows := MixedRows(c);
    var k2 := [c.g, c.l];
    KeyPair(rows[0][0], rows[0][1]);
    KeyPair(rows[1][0], rows[1][1]);
    KeyPair(rows[2][0], rows[2][1]);
    assert Key(rows[0]) != k2 by { assert Key(rows[0])[0] != k2[0]; }
    assert Key(rows[1]) != k2 by { assert Key(rows[1])[0] != k2[0]; }
    FilterLast(rows[0], rows[1], rows[2], row => Key(row) == k2);
  }

  lemma FilterFirstTwo<T(!new)>(x0: T, x1: T, x2: T, p: T -> bool)
    requires p(x0) && p(x1) && !p(x2)
    ensures Filter([x0, x1, x2], p) == [x0, x1]
  {
    FilterKeep([], x0, p, []);
    FilterKeep([] + [x0], x1, p, [] + [x0]);
    FilterDrop([] + [x0] + [x1], x2, p, [] + [x0] + [x1]);
    assert [] + [x0] + [x1] + [x2] == [x0, x1, x2];
    assert [] + [x0] + [x1] == [x0, x1];
  }

  lemma FilterLast<T(!new)>(x0: T, x1: T, x2: T, p: T -> bool)
    requires !p(x0) && !p(x1) && p(x2)
    ensures Filter([x0, x1, x2], p) == [x2]
  {
    FilterDrop([], x0, p, []);
    FilterDrop([] + [x0], x1, p, []);
    FilterKeep([] + [x0] + [x1], x2, p, []);
    assert [] + [x0] + [x1] + [x2] == [x0, x1, x2];
    assert [] + [x2] == [x2];
  }

  /** The values of the composite matches cast. */
  predicate CompositeCasts(c: MixedCase, cast: (Raw, string) -> Result<Value>) {
    cast(c.j1, c.f).Ok? && cast(c.j2, c.f).Ok? && cast(c.d, c.l).Ok? &&
    cast(c.s, c.l).Ok? && cast(c.n, c.g).Ok?
  }

  /** The Composite group of `key` when its rows are `r0` and `r1`. */
  lemma GroupOfTwo(key: seq<string>, rows: seq<seq<ColumnValue>>, r0: seq<ColumnValue>, r1: seq<ColumnValue>,
                   cast: (Raw, string) -> Result<Value>)
    requires WithKey(rows, key) == [r0, r1] && CastRow(r0, cast).Ok? && CastRow(r1, cast).Ok?
    ensures CompositeGroupFor(key, rows, cast) == Ok(CompositeGroup(key, [CastRow(r0, cast).value, CastRow(r1, cast).value]))
  {
    var g := CompositeGroupFor(key, rows, cast);
    assert g.Ok?;
    var t := g.value.tuples;
    assert |t| == 2 && t[0] == CastRow(r0, cast).value && t[1] == CastRow(r1, cast).value;
    assert t == [CastRow(r0, cast).value, CastRow(r1, cast).value];
  }

  /** The Composite group of `key` when its only row is `r0`. */
  lemma GroupOfOne(key: seq<string>, rows: seq<seq<ColumnValue>>, r0: seq<ColumnValue>,
                   cast: (Raw, string) -> Result<Value>)
    requires WithKey(rows, key) == [r0] && CastRow(r0, cast).Ok?
    ensures CompositeGroupFor(key, rows, cast) == Ok(CompositeGroup(key, [CastRow(r0, cast).value]))
  {
    var g := CompositeGroupFor(key, rows, cast);
    assert g.Ok?;
    var t := g.value.tuples;
    assert |t| == 1 && t[0] == CastRow(r0, cast).value;
    assert t == [CastRow(r0, cast).value];
  }

  /** Two column lists make two Composite groups, in key order. */
  lemma TwoKeys(rows: seq<seq<ColumnValue>>, k1: seq<string>, k2: seq<string>, cast: (Raw, string) -> Result<Value>)
    requires Keys(rows) == [k1, k2]
    requires CompositeGroupFor(k1, rows, cast).Ok? && CompositeGroupFor(k2, rows, cast).Ok?
    ensures CompositeGroups(rows, cast) == Ok([CompositeGroupFor(k1, rows, cast).value, CompositeGroupFor(k2, rows, cast).value])
  {
    var keys := Keys(rows);
    assert |keys| == 2 && keys[0] == k1 && keys[1] == k2;
    var g1, g2 := CompositeGroupFor(k1, rows, cast).value, CompositeGroupFor(k2, rows, cast).value;
    var r := CompositeGroups(rows, cast);
    assert r.Ok?;
    assert |r.value| == 2 && r.value[0] == g1 && r.value[1] == g2;
    Two(r.value, g1, g2);
  }

  /** Two Composite groups: `f, l` with the first two matches' tuples in
      queue order, then `g, l` with the third match's values in column order. */
  lemma MixedComposite(c: MixedCase, cast: (Raw, string) -> Result<Value>)
    requires Separated(c) && CompositeCasts(c, cast)
    ensures CompositeGroups(MixedRows(c), cast) == Ok([
      CompositeGroup([c.f, c.l], [[cast(c.j1, c.f).value, cast(c.d, c.l).value],
                                  [cast(c.j2, c.f).value, cast(c.d, c.l).value]]),
      CompositeGroup([c.g, c.l], [[cast(c.n, c.g).value, cast(c.s, c.l).value]])])
  {
    var rows := MixedRows(c);
    MixedKeys(c);
    MixedFirstGroup(c, cast);
    MixedSecondGroup(c, cast);
    TwoKeys(rows, [c.f, c.l], [c.g, c.l], cast);
  }

  lemma MixedFirstGroup(c: MixedCase, cast: (Raw, string) -> Result<Value>)
    requires Separated(c) && CompositeCasts(c, cast)
    ensures CompositeGroupFor([c.f, c.l], MixedRows(c), cast) ==
      Ok(CompositeGroup([c.f, c.l], [[cast(c.j1, c.f).value, cast(c.d, c.l).value],
                                     [cast(c.j2, c.f).value, cast(c.d, c.l).value]]))
  {
    var rows := MixedRows(c);
    MixedFirstRows(c);
    CastPair(rows[0][0], rows[0][1], cast);
    CastPair(rows[1][0], rows[1][1], cast);
    GroupOfTwo([c.f, c.l], rows, rows[0], rows[1], cast);
  }

  lemma MixedSecondGroup(c: MixedCase, cast: (Raw, string) -> Result<Value>)
    requires Separated(c) && CompositeCasts(c, cast)
    ensures CompositeGroupFor([c.g, c.l], MixedRows(c), cast) ==
      Ok(CompositeGroup([c.g, c.l], [[cast(c.n, c.g).value, cast(c.s, c.l).value]]))
  {
    var rows := MixedRows(c);
    MixedThirdRow(c);
    CastPair(rows[2][0], rows[2][1], cast);
    GroupOfOne([c.g, c.l], rows, rows[2], cast);
  }

  /** With a simple id `a` and `b`, every configured column gets a Simple
      group holding both cast to its type. */
  lemma TwoIdGroups(configured: seq<string>, a: Raw, b: Raw, cast: (Raw, string) -> Result<Value>)
    requires forall col :: col in configured ==> cast(a, col).Ok? && cast(b, col).Ok?
    ensures var r := SimpleGroups(configured, [a, b], cast);
      r.Ok? && |r.value| == |configured| &&
      forall i :: 0 <= i < |configured| ==>
        r.value[i] == SimpleGroup(configured[i], [cast(a, configured[i]).value, cast(b, configured[i]).value])
  {
    forall i | 0 <= i < |configured|
      ensures SimpleGroupFor(configured[i], [a, b], cast) ==
        Ok(SimpleGroup(configured[i], [cast(a, configured[i]).value, cast(b, configured[i]).value]))
    {
      assert configured[i] in configured;
      var g := SimpleGroupFor(configured[i], [a, b], cast);
      assert g.Ok?;
      assert g.value.ids == [cast(a, configured[i]).value, cast(b, configured[i]).value];
    }
  }

  /** The mixed case, once the repeats are dropped: every configured column
      gets a Simple group holding `a` and `b` cast to its type, in configured
      order; then come the two Composite groups. */
  lemma MixedGroups(c: MixedCase, configured: seq<string>, cast: (Raw, string) -> Result<Value>)
    requires Separated(c) && CompositeCasts(c, cast)
    requires forall col :: col in configured ==> cast(c.a, col).Ok? && cast(c.b, col).Ok?
    ensures var r := ColumnGroups(configured, cast, MixedKept(c));
      var n := |configured|;
      r.Ok? && |r.value| == n + 2 &&
      (forall i :: 0 <= i < n ==>
        r.value[i] == SimpleGroup(configured[i], [cast(c.a, configured[i]).value, cast(c.b, configured[i]).value])) &&
      r.value[n] == CompositeGroup([c.f, c.l], [[cast(c.j1, c.f).value, cast(c.d, c.l).value],
                                                [cast(c.j2, c.f).value, cast(c.d, c.l).value]]) &&
      r.value[n + 1] == CompositeGroup([c.g, c.l], [[cast(c.n, c.g).value, cast(c.s, c.l).value]])
  {
    MixedIds(c);
    MixedRowsOf(c);
    MixedComposite(c, cast);
    TwoIdGroups(configured, c.a, c.b, cast);
  }

  // ---------------------------------------------------------------------
  // The mixed case against its table: three string columns and one integer
  // column `g`; the ids and the value on `g` are decimal texts.

  /** The table of the mixed case: `cid`, `f` and `l` are string columns and
      `g` a column of integer type `ty`. */
  predicate MixedTable(c: MixedCase, cid: string, ty: string, cols: seq<Column>) {
    StringColumns([cid, c.f, c.l], cols) &&
    '.' !in c.g && FindColumn(cols, c.g) == Some(Column(c.g, ty)) &&
    KindOf(ty).Some? && IsIntegerKind(KindOf(ty).value)
  }

  /** The values of the mixed case: the ids and the value on `g` are the
      decimal texts of `x`, `y` and `z`; the others are texts. */
  predicate MixedValues(c: MixedCase, x: int, y: int, z: int, t1: string, t2: string, td: string, ts: string) {
    c.a == RawStr(ShowInt(x)) && c.b == RawStr(ShowInt(y)) && c.n == RawStr(ShowInt(z)) &&
    c.j1 == RawStr(t1) && c.j2 == RawStr(t2) && c.d == RawStr(td) && c.s == RawStr(ts)
  }

  lemma MixedTableCasts(c: MixedCase, cid: string, ty: string, cols: seq<Column>,
                        x: int, y: int, z: int, t1: string, t2: string, td: string, ts: string)
    requires MixedTable(c, cid, ty, cols) && MixedValues(c, x, y, z, t1, t2, td, ts)
    ensures forall col :: col in [cid, c.f, c.l] ==>
      Cast(c.a, col, cols) == Ok(Str(ShowInt(x))) && Cast(c.b, col, cols) == Ok(Str(ShowInt(y)))
    ensures Cast(c.a, c.g, cols) == Ok(Integer(x)) && Cast(c.b, c.g, cols) == Ok(Integer(y))
    ensures Cast(c.j1, c.f, cols) == Ok(Str(t1)) && Cast(c.j2, c.f, cols) == Ok(Str(t2))
    ensures Cast(c.d, c.l, cols) == Ok(Str(td)) && Cast(c.s, c.l, cols) == Ok(Str(ts))
    ensures Cast(c.n, c.g, cols) == Ok(Integer(z))
  {
    var names := [cid, c.f, c.l];
    forall col | col in names
      ensures Cast(c.a, col, cols) == Ok(Str(ShowInt(x))) && Cast(c.b, col, cols) == Ok(Str(ShowInt(y)))
    {
      var i := FirstIndex(names, col);
      StringCast(c.a, col, cols);
      StringCast(c.b, col, cols);
    }
    IntCast(x, c.g, ty, cols);
    IntCast(y, c.g, ty, cols);
    IntCast(z, c.g, ty, cols);
    assert names[1] == c.f && names[2] == c.l;
    StringCast(c.j1, c.f, cols);
    StringCast(c.j2, c.f, cols);
    StringCast(c.d, c.l, cols);
    StringCast(c.s, c.l, cols);
  }

  /** The mixed case for a cast whose results are given: the four
      configured columns `cid`, `f`, `l`, `g` get both ids as the cast gives
      them, then come the two Composite groups. */
  lemma MixedGroupsAt(c: MixedCase, cid: string, cast: (Raw, string) -> Result<Value>,
                      sx: Value, sy: Value, ix: Value, iy: Value,
                      v1: Value, v2: Value, vd: Value, vs: Value, vz: Value)
    requires Separated(c)
    requires forall col :: col in [cid, c.f, c.l] ==> cast(c.a, col) == Ok(sx) && cast(c.b, col) == Ok(sy)
    requires cast(c.a, c.g) == Ok(ix) && cast(c.b, c.g) == Ok(iy)
    requires cast(c.j1, c.f) == Ok(v1) && cast(c.j2, c.f) == Ok(v2) && cast(c.d, c.l) == Ok(vd)
    requires cast(c.s, c.l) == Ok(vs) && cast(c.n, c.g) == Ok(vz)
    ensures ColumnGroups([cid, c.f, c.l, c.g], cast, MixedKept(c)) == Ok([
      SimpleGroup(cid, [sx, sy]), SimpleGroup(c.f, [sx, sy]), SimpleGroup(c.l, [sx, sy]),
      SimpleGroup(c.g, [ix, iy]),
      CompositeGroup([c.f, c.l], [[v1, vd], [v2, vd]]),
      CompositeGroup([c.g, c.l], [[vz, vs]])])
  {
    var configured := [cid, c.f, c.l, c.g];
    var s0, s1, s2, s3 := SimpleGroup(cid, [sx, sy]), SimpleGroup(c.f, [sx, sy]), SimpleGroup(c.l, [sx, sy]),
      SimpleGroup(c.g, [ix, iy]);
    var g0, g1 := CompositeGroup([c.f, c.l], [[v1, vd], [v2, vd]]), CompositeGroup([c.g, c.l], [[vz, vs]]);
    assert [s0, s1, s2, s3] + [g0, g1] == [s0, s1, s2, s3, g0, g1];
    assert cast(c.a, cid) == Ok(sx) && cast(c.b, cid) == Ok(sy);
    assert cast(c.a, c.f) == Ok(sx) && cast(c.b, c.f) == Ok(sy);
    assert cast(c.a, c.l) == Ok(sx) && cast(c.b, c.l) == Ok(sy);
    FourSimple(cid, c.f, c.l, c.g, c.a, c.b, cast, sx, sy, ix, iy);
    MixedIds(c);
    MixedRowsOf(c);
    MixedComposite(c, cast);
    var simple := SimpleGroups(configured, [c.a, c.b], cast).value;
    var composite := CompositeGroups(MixedRows(c), cast).value;
    assert simple == [s0, s1, s2, s3];
    assert composite == [g0, g1];
    var r := ColumnGroups(configured, cast, MixedKept(c));
    assert r.Ok? && r.value == simple + composite;
  }

  /** Four Simple groups for the ids `a` and `b`, the first three columns
      casting them to `sx`, `sy` and the fourth to `ix`, `iy`. */
  lemma FourSimple(c0: string, c1: string, c2: string, c3: string, a: Raw, b: Raw,
                   cast: (Raw, string) -> Result<Value>, sx: Value, sy: Value, ix: Value, iy: Value)
    requires cast(a, c0) == Ok(sx) && cast(b, c0) == Ok(sy)
    requires cast(a, c1) == Ok(sx) && cast(b, c1) == Ok(sy)
    requires cast(a, c2) == Ok(sx) && cast(b, c2) == Ok(sy)
    requires cast(a, c3) == Ok(ix) && cast(b, c3) == Ok(iy)
    ensures SimpleGroups([c0, c1, c2, c3], [a, b], cast) ==
      Ok([SimpleGroup(c0, [sx, sy]), SimpleGroup(c1, [sx, sy]), SimpleGroup(c2, [sx, sy]), SimpleGroup(c3, [ix, iy])])
  {
    var configured := [c0, c1, c2, c3];
    TwoIdGroups(configured, a, b, cast);
    var r := SimpleGroups(configured, [a, b], cast).value;
    assert r[0] == SimpleGroup(c0, [sx, sy]) by { assert configured[0] == c0; }
    assert r[1] == SimpleGroup(c1, [sx, sy]) by { assert configured[1] == c1; }
    assert r[2] == SimpleGroup(c2, [sx, sy]) by { assert configured[2] == c2; }
    assert r[3] == SimpleGroup(c3, [ix, iy]) by { assert configured[3] == c3; }
    assert |r| == 4;
    Four(r, SimpleGroup(c0, [sx, sy]), SimpleGroup(c1, [sx, sy]), SimpleGroup(c2, [sx, sy]), SimpleGroup(c3, [ix, iy]));
  }

  /** The mixed case against its table, once the repeats are dropped: every
      configured column gets both ids (as text on the string columns, as
      integers on `g`), the first composite group holds the two text tuples,
      and the second the integer on `g` followed by the text on `l`. */
  lemma MixedTableGroups(c: MixedCase, cid: string, ty: string, cols: seq<Column>,
                         x: int, y: int, z: int, t1: string, t2: string, td: string, ts: string)
    requires Separated(c) && MixedTable(c, cid, ty, cols) && MixedValues(c, x, y, z, t1, t2, td, ts)
    ensures ColumnGroups([cid, c.f, c.l, c.g], TableCast(cols), MixedKept(c)) == Ok([
      SimpleGroup(cid, [Str(ShowInt(x)), Str(ShowInt(y))]),
      SimpleGroup(c.f, [Str(ShowInt(x)), Str(ShowInt(y))]),
      SimpleGroup(c.l, [Str(ShowInt(x)), Str(ShowInt(y))]),
      SimpleGroup(c.g, [Integer(x), Integer(y)]),
      CompositeGroup([c.f, c.l], [[Str(t1), Str(td)], [Str(t2), Str(td)]]),
      CompositeGroup([c.g, c.l], [[Integer(z), Str(ts)]])])
  {
    MixedTableCasts(c, cid, ty, cols, x, y, z, t1, t2, td, ts);
    MixedGroupsAt(c, cid, TableCast(cols), Str(ShowInt(x)), Str(ShowInt(y)), Integer(x), Integer(y),
                  Str(t1), Str(t2), Str(td), Str(ts), Integer(z));
  }

  /** The mixed case as queued: the repeats are dropped and the groups are
      those above. */
  lemma MixedQueueGroups(c: MixedCase, cid: string, ty: string, cols: seq<Column>,
                         x: int, y: int, z: int, t1: string, t2: string, td: string, ts: string)
    requires Separated(c) && MixedTable(c, cid, ty, cols) && MixedValues(c, x, y, z, t1, t2, td, ts)
    ensures ColumnGroups([cid, c.f, c.l, c.g], TableCast(cols), Applicable(MixedQueue(c), c.id)) == Ok([
      SimpleGroup(cid, [Str(ShowInt(x)), Str(ShowInt(y))]),
      SimpleGroup(c.f, [Str(ShowInt(x)), Str(ShowInt(y))]),
      SimpleGroup(c.l, [Str(ShowInt(x)), Str(ShowInt(y))]),
      SimpleGroup(c.g, [Integer(x), Integer(y)]),
      CompositeGroup([c.f, c.l], [[Str(t1), Str(td)], [Str(t2), Str(td)]]),
      CompositeGroup([c.g, c.l], [[Integer(z), Str(ts)]])])
  {
    MixedApplicable(c);
    MixedTableGroups(c, cid, ty, cols, x, y, z, t1, t2, td, ts);
  }

  /** Sequence extensionality for two and four elements, kept apart from the
      large contexts of the scenario proofs that use them. */
  lemma Two<T>(s: seq<T>, x0: T, x1: T)
    requires |s| == 2 && s[0] == x0 && s[1] == x1
    ensures s == [x0, x1]
  {
  }

  lemma Four<T>(s: seq<T>, x0: T, x1: T, x2: T, x3: T)
    requires |s| == 4 && s[0] == x0 && s[1] == x1 && s[2] == x2 && s[3] == x3
    ensures s == [x0, x1, x2, x3]
  {
  }
}
