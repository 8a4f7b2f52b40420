# Deletion-query generator: a Dafny model

This project models the query generator of a data-erasure pipeline. It turns
the deletion queue (match ids, each simple or composite, optionally scoped to
some data mappers) and one data mapper (a catalog table and the columns to
search) into query records for the Athena executor. The records come one per
catalog partition, or a single one for an unpartitioned table.

The implementation module is not part of this model. Its behaviour is taken
from the assertions of its unit tests, `tests/unit/tasks/test_generate_queries.py`.
Everything is modelled as pure functions over datatypes, with lemmas:

- `Schema` parses a catalog type string such as
  `struct<type:int,x:map<...>,info:struct<user_id:int,name:string>>` into a tree.
  It covers `get_inner_children` and `get_nested_children`, and renders a tree
  back to text.
- `Resolver` finds the column that a dotted id such as `user.info.name`
  addresses. It walks struct fields down to a primitive kind. Arrays, map
  entries and unsupported primitive types are refused.
- `Caster` is `cast_to_type`. The string kinds keep the value's text. The
  integer kinds read it with `int()`, modelled in `Decimal`. `double` and
  `float` accept the value as it is.
- `Classifier` does the following, in order:
  - keeps the matches in the data mapper's scope, each once and in
    first-seen order;
  - builds one Simple group per configured column, holding every simple id
    cast to that column;
  - builds one Composite group per distinct sorted column list, holding each
    match's values in that column order, cast per column.
- `Assembler` is `generate_athena_queries`, together with the handler's
  executor check.
- `Scenarios`, `QueryScenarios` and `CompositeScenarios` state each test
  scenario as a lemma about the model.

The scenario lemmas take the test's names, ids and numbers as parameters,
with preconditions saying only what the scenario relies on. For example, the
columns are string columns, the ids are distinct, and an integer id is the
decimal text `ShowInt(n)`. The test's literal data is one instance of each.

## Model

| member | source | states |
|---|---|---|
| Text.Split | tests/unit/tasks/test_generate_queries.py:819-830 | splitting a dotted id gives pieces without dots that join back to the id |
| Text.SplitJoin | tests/unit/tasks/test_generate_queries.py:819-830 | splitting the dotted join of dot-free names gives the names back |
| Text.LessEqTotal | tests/unit/tasks/test_generate_queries.py:258-312 | any two column names are ordered one way or the other, as the column sort needs |
| Text.LessEqTransitive | tests/unit/tasks/test_generate_queries.py:258-312 | the column-name order is transitive |
| Text.LessEqAntisymmetric | tests/unit/tasks/test_generate_queries.py:258-312 | names ordered both ways are equal |
| Decimal.ShowInt | tests/unit/tasks/test_generate_queries.py:133-174 | `str(n)` is non-empty, starts with `-` exactly for negative n, and is digits otherwise |
| Decimal.ParseInt | tests/unit/tasks/test_generate_queries.py:795-817 | `int(s)` succeeds only on optional whitespace, an optional sign and digits; a negative result has a minus sign |
| Decimal.ParseShowInt | tests/unit/tasks/test_generate_queries.py:176-215 | `int(str(n)) == n` for every integer |
| Decimal.ShowNatOfDigitsValue | tests/unit/tasks/test_generate_queries.py:133-174 | digits without a leading zero are the decimal text of their own value |
| Decimal.DigitsValueOfShowNat | tests/unit/tasks/test_generate_queries.py:133-174 | the digits of `str(n)` read back as n |
| Decimal.ParseDigits | tests/unit/tasks/test_generate_queries.py:795-817 | a run of digits reads as its decimal value |
| Decimal.ParseNonNumeric | tests/unit/tasks/test_generate_queries.py:880-890 | text starting with no space, sign or digit is not an integer |
| Brackets.CloseIndexMeaning | tests/unit/tasks/test_generate_queries.py:897-902 | the bracket scan stops at the first point the depth reaches zero, and finds nothing only if it never does |
| Brackets.CloseIndexBalanced | tests/unit/tasks/test_generate_queries.py:819-830 | a balanced body followed by `>` is closed exactly there |
| Brackets.CloseIndexNever | tests/unit/tasks/test_generate_queries.py:897-902 | a depth that never reaches zero leaves no closing point |
| Schema.InnerChildren | tests/unit/tasks/test_generate_queries.py:892-895 | the text between prefix and suffix, and "schema not valid" exactly when either is missing |
| Schema.NestedChildren | tests/unit/tasks/test_generate_queries.py:897-902 | the leading `kind<...>` up to its closing bracket, and "schema not valid" exactly when that bracket is never closed |
| Schema.ParseType | tests/unit/tasks/test_generate_queries.py:819-862 | a type text fails only as "schema not valid" or "array not supported"; any `array<...>` is refused; a primitive is its own text, with no angle bracket and every comma inside closed parentheses, as in `decimal(10,2)`; a map is `map<body>` with a balanced body |
| Schema.ParseFields | tests/unit/tasks/test_generate_queries.py:819-830 | a field list fails only as "schema not valid" or "array not supported"; it is empty exactly for empty text and has at most one field per character |
| Schema.ChildType | tests/unit/tasks/test_generate_queries.py:819-830 | a field's type text is a prefix of what follows the field name |
| Schema.TopCommaAfter | tests/unit/tasks/test_generate_queries.py:819-830 | after a primitive name the type text ends at the comma that follows it, not at a comma inside its parentheses |
| Schema.TwoParamsPrimitive | tests/unit/tasks/test_generate_queries.py:864-878 | a plain name with a two-parameter list, such as `decimal(10,2)`, is a primitive type name |
| Schema.PlainParamsOk | tests/unit/tasks/test_generate_queries.py:864-878 | a name without brackets, parentheses or commas is a primitive type name |
| Schema.ParamsAppend | tests/unit/tasks/test_generate_queries.py:864-878 | a primitive name followed by a closed parameter list is a primitive name |
| Schema.ParseRender | tests/unit/tasks/test_generate_queries.py:819-830 | parsing the text of any well-formed type tree gives the tree back |
| Schema.ParseFieldsRender | tests/unit/tasks/test_generate_queries.py:819-830 | parsing the text of well-formed struct fields gives the fields back |
| Schema.RenderParse | tests/unit/tasks/test_generate_queries.py:819-830 | every text that parses is the text of the well-formed tree it parses to, the converse of the round trip |
| Schema.RenderParseFields | tests/unit/tasks/test_generate_queries.py:819-830 | every field list that parses is the text of the well-formed fields it parses to |
| Schema.UnbalancedRejected | tests/unit/tasks/test_generate_queries.py:892-902 | a type text whose brackets do not balance is never a valid schema, whatever is looked up in it |
| Schema.SplitFieldRender | tests/unit/tasks/test_generate_queries.py:819-830 | the first `name:type` of rendered text splits off as that field, leaving the rest |
| Schema.ChildTypeRender | tests/unit/tasks/test_generate_queries.py:819-830 | the type text read at the head of a rendered type is that type's text |
| Schema.NestedChildrenBalanced | tests/unit/tasks/test_generate_queries.py:819-830 | a balanced `kind<body>` is cut off exactly at its closing `>` |
| Schema.NestedChildrenUnclosed | tests/unit/tasks/test_generate_queries.py:897-902 | a `kind<` never closed is "schema not valid" |
| Schema.RenderBalanced | tests/unit/tasks/test_generate_queries.py:819-830 | the text of a well-formed tree has balanced brackets |
| Schema.ArrayRejected | tests/unit/tasks/test_generate_queries.py:844-862 | any `array<...>` type is refused |
| Schema.ArrayFieldRejected | tests/unit/tasks/test_generate_queries.py:844-862 | a field of array type makes the field list unparseable |
| Schema.FirstFieldArrayRejected | tests/unit/tasks/test_generate_queries.py:844-862 | a struct whose first field is an array is refused |
| Schema.LaterFieldArrayRejected | tests/unit/tasks/test_generate_queries.py:844-862 | a struct reaching an array field after well-formed fields is refused |
| Schema.ParseFieldsAfter | tests/unit/tasks/test_generate_queries.py:844-862 | well-formed fields before a field list are parsed and put in front of its result, error or not |
| Resolver.KindOf | tests/unit/tasks/test_generate_queries.py:795-817 | the supported kind a primitive type name stands for, and none for any other name |
| Resolver.FindColumn | tests/unit/tasks/test_generate_queries.py:832-842 | the first column of that name, or none when no column has it |
| Resolver.FindField | tests/unit/tasks/test_generate_queries.py:819-830 | the first struct field of that name, or none when no field has it |
| Resolver.Walk | tests/unit/tasks/test_generate_queries.py:819-862 | a walk fails only as an unsupported type or an unknown field of the full id; an empty path succeeds exactly on a supported primitive; a path into a non-struct is an unsupported type |
| Resolver.ResolveKind | tests/unit/tasks/test_generate_queries.py:832-878 | an id whose first piece names no column is an unknown column; otherwise the only errors are the schema errors and the walk errors of the full id |
| Resolver.WalkMeaning | tests/unit/tasks/test_generate_queries.py:819-830 | a walk succeeds exactly when the path leads through struct fields to a supported primitive, and returns its kind |
| Resolver.NodeAtThroughMap | tests/unit/tasks/test_generate_queries.py:844-862 | nothing below a map can be addressed |
| Resolver.WalkThroughMapFails | tests/unit/tasks/test_generate_queries.py:844-862 | resolving a path that passes through a map fails |
| Resolver.ResolveRendered | tests/unit/tasks/test_generate_queries.py:819-830 | resolving `column.p1.p2` on a column of a well-formed struct type is the walk of its tree |
| Resolver.ResolvePlain | tests/unit/tasks/test_generate_queries.py:864-878 | a plain id on a column of any primitive type, parameters included, resolves to that type's kind, or is refused as unsupported |
| Resolver.ResolveBadSchema | tests/unit/tasks/test_generate_queries.py:892-902 | a dotted id on a column whose type text does not parse fails with the parse error |
| Caster.CastToKind | tests/unit/tasks/test_generate_queries.py:795-817 | string kinds give the value's text; integer kinds give the integer or fail exactly when `int()` does; double and float keep the value |
| Caster.Cast | tests/unit/tasks/test_generate_queries.py:795-890 | succeeds exactly when the id resolves and the value converts; a resolution error is passed on unchanged |
| Caster.CastToKindIdempotent | tests/unit/tasks/test_generate_queries.py:133-174 | converting an already converted value again changes nothing |
| Caster.CastIdempotent | tests/unit/tasks/test_generate_queries.py:133-174 | casting a cast value to the same column changes nothing |
| Caster.IntThroughString | tests/unit/tasks/test_generate_queries.py:314-418 | an int id that became text on a string column reads back as the same int on an integer column |
| Caster.IntegerCastNeedsDigits | tests/unit/tasks/test_generate_queries.py:880-890 | an integer cast of text succeeds only on a signed run of digits |
| Classifier.InScope | tests/unit/tasks/test_generate_queries.py:607-650 | a match with no scope or an empty scope applies to every data mapper; one whose scope names the data mapper applies to it; one with a non-empty scope that does not name it does not |
| Classifier.Applicable | tests/unit/tasks/test_generate_queries.py:607-650 | exactly the queued matches in the data mapper's scope, without repeats (their order is in ApplicableOrder) |
| Classifier.ApplicableOrder | tests/unit/tasks/test_generate_queries.py:314-418 | the applicable matches come in the order of their first occurrence in the queue |
| Classifier.SortByColumn | tests/unit/tasks/test_generate_queries.py:258-312 | a composite match's pairs sorted by column name, a permutation of them |
| Classifier.Insert | tests/unit/tasks/test_generate_queries.py:258-312 | inserting a pair into a sorted row keeps it sorted and adds exactly that pair |
| Classifier.SimpleIds | tests/unit/tasks/test_generate_queries.py:314-418 | every simple match's id is among the ids |
| Classifier.SimpleIdsAppend | tests/unit/tasks/test_generate_queries.py:314-418 | the ids of two queues one after the other are the ids of the first followed by those of the second |
| Classifier.SimpleIdsOne | tests/unit/tasks/test_generate_queries.py:314-418 | a single simple match gives its id, a composite one none; with SimpleIdsAppend this fixes the ids, their number and their order |
| Classifier.SimpleIdOrigin | tests/unit/tasks/test_generate_queries.py:314-418 | every id comes from a simple match |
| Classifier.Rows | tests/unit/tasks/test_generate_queries.py:258-312 | every composite match contributes its sorted row, and every row is sorted |
| Classifier.RowsAppend | tests/unit/tasks/test_generate_queries.py:258-418 | the rows of two queues one after the other are the rows of the first followed by those of the second |
| Classifier.RowsOne | tests/unit/tasks/test_generate_queries.py:258-312 | a single composite match gives its sorted pairs as one row, a simple one no row; with RowsAppend this fixes the rows and their order |
| Classifier.RowOrigin | tests/unit/tasks/test_generate_queries.py:258-312 | every row is the sorted pairs of some composite match |
| Classifier.Keys | tests/unit/tasks/test_generate_queries.py:314-418 | every row's column list is among the keys, each key once |
| Classifier.KeyOrigin | tests/unit/tasks/test_generate_queries.py:314-418 | every key is the column list of some row |
| Classifier.SimpleGroupFor | tests/unit/tasks/test_generate_queries.py:217-256 | a column's Simple group holds every id cast to that column, in order, and fails exactly when some id does not cast |
| Classifier.CastRow | tests/unit/tasks/test_generate_queries.py:258-312 | a row's values each cast to their own column, failing exactly when one does not |
| Classifier.WithKey | tests/unit/tasks/test_generate_queries.py:314-418 | exactly the rows whose column list is the key |
| Classifier.WithKeyAppend | tests/unit/tasks/test_generate_queries.py:314-418 | selecting by key distributes over concatenation and keeps a single row exactly when it has the key, so the rows keep their order and repeats |
| Classifier.CompositeGroupFor | tests/unit/tasks/test_generate_queries.py:314-418 | a key's Composite group holds the cast tuple of every row with that key, in order |
| Classifier.SimpleGroups | tests/unit/tasks/test_generate_queries.py:217-256 | one Simple group per configured column in configured order, and none when there is no simple id |
| Classifier.CompositeGroups | tests/unit/tasks/test_generate_queries.py:314-418 | one Composite group per distinct column list, in first-seen order |
| Classifier.ColumnGroups | tests/unit/tasks/test_generate_queries.py:314-418 | the Simple groups followed by the Composite groups, failing exactly when either fails |
| Classifier.ColumnGroupsLength | tests/unit/tasks/test_generate_queries.py:314-418 | one group per configured column when there is a simple id, plus one per distinct column list |
| Classifier.ColumnGroupsSimple | tests/unit/tasks/test_generate_queries.py:314-418 | the first groups are the Simple groups of the configured columns, in order |
| Classifier.ColumnGroupsComposite | tests/unit/tasks/test_generate_queries.py:314-418 | after them come the Composite groups, in key order |
| Classifier.SimpleGroupsOk | tests/unit/tasks/test_generate_queries.py:880-890 | Simple groups fail exactly when some simple id does not cast to some configured column |
| Classifier.CompositeGroupsOk | tests/unit/tasks/test_generate_queries.py:880-890 | Composite groups fail exactly when some row does not cast |
| Classifier.RowsCastOk | tests/unit/tasks/test_generate_queries.py:880-890 | every row casts exactly when every composite pair casts to its own column |
| Classifier.ColumnGroupsOk | tests/unit/tasks/test_generate_queries.py:880-890 | the groups fail exactly when some applicable value does not cast to its column |
| Classifier.CompositeComplete | tests/unit/tasks/test_generate_queries.py:258-312 | every composite match appears, as its cast sorted tuple, in the Composite group of its sorted columns |
| Classifier.CompositeKeys | tests/unit/tasks/test_generate_queries.py:314-418 | the Composite groups have pairwise different column lists, each sorted |
| Classifier.ColumnGroupsEmpty | tests/unit/tasks/test_generate_queries.py:726-774 | there are no groups exactly when there is no composite match and no simple match or no configured column |
| Classifier.NoSimpleIds | tests/unit/tasks/test_generate_queries.py:258-312 | there are no simple ids exactly when no match is simple |
| Classifier.NoKeys | tests/unit/tasks/test_generate_queries.py:94-131 | there are no column lists exactly when no match is composite |
| Lists.Filter | tests/unit/tasks/test_generate_queries.py:607-650 | the kept elements are exactly those satisfying the predicate |
| Lists.FilterAppend | tests/unit/tasks/test_generate_queries.py:607-650 | filtering two sequences one after the other is filtering each and concatenating |
| Lists.FilterOne | tests/unit/tasks/test_generate_queries.py:607-650 | a single element is kept exactly when it satisfies the predicate |
| Lists.FilterOrder | tests/unit/tasks/test_generate_queries.py:607-650 | filtering keeps the elements in the order of their first occurrence |
| Lists.Dedup | tests/unit/tasks/test_generate_queries.py:314-418 | the same elements without repeats |
| Lists.DedupOrder | tests/unit/tasks/test_generate_queries.py:314-418 | repeats are dropped keeping first-seen order |
| Lists.DedupDistinct | tests/unit/tasks/test_generate_queries.py:314-418 | a queue without repeats is left as it is |
| Lists.DedupIdempotent | tests/unit/tasks/test_generate_queries.py:314-418 | removing repeats twice is removing them once |
| Lists.DedupFilter | tests/unit/tasks/test_generate_queries.py:607-650 | the scope filter and the removal of repeats commute |
| Lists.FilterAll | tests/unit/tasks/test_generate_queries.py:94-131 | a filter every element passes changes nothing |
| Lists.FirstIndex | tests/unit/tasks/test_generate_queries.py:314-418 | the position of an element's first occurrence |
| Outcomes.Traverse | tests/unit/tasks/test_generate_queries.py:880-890 | mapping a failing step over a list fails exactly when some element fails, and then with that element's error |
| Outcomes.Message | tests/unit/tasks/test_generate_queries.py:864-902 | the unsupported-type text names the full column id between "Column " and " is not a supported column type for querying"; the schema text is "Column schema is not valid" |
| Assembler.PartitionValues | tests/unit/tasks/test_generate_queries.py:420-464 | a partition's key/value pairs in key order, each value cast to its key's type, failing exactly when one does not cast |
| Assembler.QueryFor | tests/unit/tasks/test_generate_queries.py:542-605 | a record carries the data mapper's identity, the groups and the pairs; `DeleteOldVersions` is true unless set false |
| Assembler.PartitionQueries | tests/unit/tasks/test_generate_queries.py:466-540 | one record per partition, in catalog order, each with that partition's pairs |
| Assembler.QueriesFor | tests/unit/tasks/test_generate_queries.py:64-88 | a data mapper whose executor is not `athena` is refused; an Athena one gets the generated queries |
| Assembler.GenerateAthenaQueries | tests/unit/tasks/test_generate_queries.py:94-774 | no applicable match gives no record, before the partitions are looked at; an unpartitioned table gets at most one record |
| Assembler.NoApplicableMatches | tests/unit/tasks/test_generate_queries.py:726-774 | no applicable match gives no record, partitioned table or not |
| Assembler.NoRecords | tests/unit/tasks/test_generate_queries.py:726-774 | there is no record exactly when the applicable matches make no column group, or the table is partitioned and has no partition |
| Assembler.Unpartitioned | tests/unit/tasks/test_generate_queries.py:652-685 | an unpartitioned table gets no record when there is no column group, else exactly one, with no partition keys and all the groups |
| Assembler.Partitioned | tests/unit/tasks/test_generate_queries.py:466-540 | when there is a column group, a partitioned table gets one record per partition, each with the same groups and its own cast values |
| Assembler.RecordsDescribeMapper | tests/unit/tasks/test_generate_queries.py:542-605 | every record carries the same non-empty column groups, describes the data mapper, copies its role and defaults `DeleteOldVersions` to true |
| Assembler.GenerateOk | tests/unit/tasks/test_generate_queries.py:880-890 | generation fails exactly when an applicable value does not cast, or, when there is a column group on a partitioned table, a partition value does not cast |
| Scenarios.CastOneColumn | tests/unit/tasks/test_generate_queries.py:795-817 | casting against a one-column table converts to that column's kind |
| Scenarios.ConvertsStringTypes | tests/unit/tasks/test_generate_queries.py:797-799 | `char`, `string` and `varchar` keep the text |
| Scenarios.ConvertsIntegerTypes | tests/unit/tasks/test_generate_queries.py:800-803 | the integer types read "2" as 2 |
| Scenarios.KeepsFloatingTypes | tests/unit/tasks/test_generate_queries.py:804-805 | `double` and `float` accept the value |
| Scenarios.UnconvertableMatch | tests/unit/tasks/test_generate_queries.py:880-890 | "mystr" on an int column is refused as not an integer |
| Scenarios.UnknownColumnRejected | tests/unit/tasks/test_generate_queries.py:832-842 | an id naming no column is refused |
| Scenarios.UnsupportedTypeRejected | tests/unit/tasks/test_generate_queries.py:864-878 | a `decimal` column is refused with the documented message |
| Scenarios.ParamTypeUnsupported | tests/unit/tasks/test_generate_queries.py:864-878 | a `decimal(10,2)` column is refused as unsupported, like `decimal`, not as an invalid schema |
| Scenarios.ResolveParamStruct | tests/unit/tasks/test_generate_queries.py:819-830 | a dotted id on a `struct<p:T,n:string>` column, for any primitive `T`, resolves as the walk of its parsed tree |
| Scenarios.ParamStructString | tests/unit/tasks/test_generate_queries.py:819-830 | in `struct<p:T,n:string>`, the field `n` is a string leaf whatever primitive `T` holds |
| Scenarios.ParamStructUnsupported | tests/unit/tasks/test_generate_queries.py:864-878 | in `struct<p:T,n:string>`, the field `p` of an unsupported primitive `T` is refused as unsupported |
| Scenarios.DecimalStructLeaves | tests/unit/tasks/test_generate_queries.py:819-878 | in `struct<p:decimal(10,2),n:string>` the comma inside the parameters does not end the field: `n` is a string leaf and `p` is unsupported |
| Scenarios.InvalidSchemaInnerChildren | tests/unit/tasks/test_generate_queries.py:892-895 | `struct<name:string` is "Column schema is not valid" |
| Scenarios.InvalidSchemaNestedChildren | tests/unit/tasks/test_generate_queries.py:897-902 | the unclosed nested struct is "Column schema is not valid" |
| Scenarios.CastUser | tests/unit/tasks/test_generate_queries.py:819-830 | casting a dotted id on the `user` column is the walk of its type tree |
| Scenarios.NestedStringLeaf | tests/unit/tasks/test_generate_queries.py:826 | `user.info.name` keeps "john_doe" |
| Scenarios.NestedIntLeaf | tests/unit/tasks/test_generate_queries.py:827 | `user.info.user_id` reads the decimal text of n as n |
| Scenarios.TopLevelIntField | tests/unit/tasks/test_generate_queries.py:828 | `user.type` reads "1" as 1 |
| Scenarios.ArrayColumnRejected | tests/unit/tasks/test_generate_queries.py:844-862 | any array column is refused |
| Scenarios.ArrayColumnsRejected | tests/unit/tasks/test_generate_queries.py:846-849 | the three array column types of the test are refused |
| Scenarios.ArrayFieldColumnRejected | tests/unit/tasks/test_generate_queries.py:848 | a struct with an array field is refused |
| Scenarios.MapColumnRejected | tests/unit/tasks/test_generate_queries.py:851 | a map column cannot be entered |
| Scenarios.MapFieldColumnRejected | tests/unit/tasks/test_generate_queries.py:850 | a struct whose field is a map refuses `column.x` |
| QueryScenarios.SimpleQueue | tests/unit/tasks/test_generate_queries.py:94-131 | a queue of simple matches, one per id, with the same flag and scope |
| QueryScenarios.StringCast | tests/unit/tasks/test_generate_queries.py:133-174 | a string column takes any value as its text, an int id as its decimal text |
| QueryScenarios.ApplicableSimpleQueue | tests/unit/tasks/test_generate_queries.py:94-131 | distinct in-scope simple matches all apply, in queue order |
| QueryScenarios.SimpleQueueParts | tests/unit/tasks/test_generate_queries.py:94-131 | a simple queue has exactly its ids and no composite rows |
| QueryScenarios.TextColumnGroups | tests/unit/tasks/test_generate_queries.py:217-256 | simple matches on string columns give each column a group of every id as text |
| QueryScenarios.TextPartitionValues | tests/unit/tasks/test_generate_queries.py:466-540 | a partition of string keys keeps its values as text |
| QueryScenarios.SimpleMatchQueries | tests/unit/tasks/test_generate_queries.py:94-256 | simple matches on string columns: no record without configured columns; otherwise one record for an unpartitioned table, else one per partition, all with every id as text in every configured column |
| QueryScenarios.SimpleQueueGroups | tests/unit/tasks/test_generate_queries.py:217-256 | the groups of a queue of distinct applicable simple matches |
| QueryScenarios.TextPartitionQueries | tests/unit/tasks/test_generate_queries.py:420-540 | one record per partition of string keys, each with its values as text |
| QueryScenarios.IntCast | tests/unit/tasks/test_generate_queries.py:176-215 | an integer column reads the decimal text of n, or n itself, as n |
| QueryScenarios.IntPartitionValue | tests/unit/tasks/test_generate_queries.py:176-215 | an integer partition key carries its value as an integer |
| QueryScenarios.IntPartitionQuery | tests/unit/tasks/test_generate_queries.py:176-215 | the int-partition case end to end: one record with the integer partition value |
| QueryScenarios.OnePartition | tests/unit/tasks/test_generate_queries.py:176-215 | a table with a single partition gets a single record |
| QueryScenarios.ScopeFilter | tests/unit/tasks/test_generate_queries.py:607-650 | a match scoped to another data mapper is dropped; one with an empty scope is kept |
| QueryScenarios.ScopeFilterQueries | tests/unit/tasks/test_generate_queries.py:607-650 | the filter case end to end: only the unscoped id is queried in every partition |
| QueryScenarios.ScopeFilterSame | tests/unit/tasks/test_generate_queries.py:607-650 | the filtered queue generates what the queue of its kept match generates |
| QueryScenarios.SameApplicable | tests/unit/tasks/test_generate_queries.py:607-650 | two queues with the same applicable matches generate the same records |
| QueryScenarios.OtherMapperOnly | tests/unit/tasks/test_generate_queries.py:726-774 | a queue holding only another data mapper's match yields no record |
| CompositeScenarios.SortInOrder | tests/unit/tasks/test_generate_queries.py:258-312 | two pairs already in column order stay as they are |
| CompositeScenarios.SortSwapped | tests/unit/tasks/test_generate_queries.py:258-312 | two pairs out of column order are swapped |
| CompositeScenarios.OneComposite | tests/unit/tasks/test_generate_queries.py:258-312 | one composite match gives one Composite group: sorted columns, one tuple of cast values |
| CompositeScenarios.OneRowGroup | tests/unit/tasks/test_generate_queries.py:258-312 | a single row makes a single Composite group holding its tuple |
| CompositeScenarios.MixedApplicable | tests/unit/tasks/test_generate_queries.py:314-377 | the repeated simple and composite matches are dropped, the rest kept in order |
| CompositeScenarios.MixedIds | tests/unit/tasks/test_generate_queries.py:314-377 | the simple ids of the mixed queue are the two ids, in order |
| CompositeScenarios.MixedRowsOf | tests/unit/tasks/test_generate_queries.py:314-377 | the rows are the composite matches in queue order, the third swapped into column order |
| CompositeScenarios.MixedSorted | tests/unit/tasks/test_generate_queries.py:314-377 | each composite match of the mixed case sorts to its row |
| CompositeScenarios.MixedKeys | tests/unit/tasks/test_generate_queries.py:378-418 | the column lists are `first_name, last_name` then `age, last_name`, each once |
| CompositeScenarios.MixedFirstRows | tests/unit/tasks/test_generate_queries.py:378-418 | the rows on the first column list are the first two |
| CompositeScenarios.MixedThirdRow | tests/unit/tasks/test_generate_queries.py:378-418 | the only row on the second column list is the third |
| CompositeScenarios.TwoKeys | tests/unit/tasks/test_generate_queries.py:378-418 | two column lists make two Composite groups, in key order |
| CompositeScenarios.MixedComposite | tests/unit/tasks/test_generate_queries.py:378-418 | the two Composite groups of the mixed case, with their tuples in queue order |
| CompositeScenarios.MixedFirstGroup | tests/unit/tasks/test_generate_queries.py:378-418 | the first Composite group holds the first two matches' tuples |
| CompositeScenarios.MixedSecondGroup | tests/unit/tasks/test_generate_queries.py:378-418 | the second Composite group holds the third match's values in column order |
| CompositeScenarios.TwoIdGroups | tests/unit/tasks/test_generate_queries.py:378-418 | with two simple ids, each configured column's group holds both, cast to it |
| CompositeScenarios.MixedGroups | tests/unit/tasks/test_generate_queries.py:378-418 | the mixed case for any configured columns: their Simple groups, then the two Composite groups |
| CompositeScenarios.MixedTableCasts | tests/unit/tasks/test_generate_queries.py:314-418 | on the mixed table, ids are text on string columns and integers on `age` |
| CompositeScenarios.FourSimple | tests/unit/tasks/test_generate_queries.py:378-418 | the four Simple groups of the mixed case, in configured order |
| CompositeScenarios.MixedGroupsAt | tests/unit/tasks/test_generate_queries.py:378-418 | the six groups of the mixed case, for given cast results |
| CompositeScenarios.MixedTableGroups | tests/unit/tasks/test_generate_queries.py:378-418 | the six groups of the mixed case against its table, with text and integer values |
| CompositeScenarios.MixedQueueGroups | tests/unit/tasks/test_generate_queries.py:314-418 | the mixed case end to end from the queue as sent, repeats included |

## Left out

- Caster.CastToKind: `double` and `float` values are accepted as given (`Real`); parsing them as floating point is not modelled.
- Decimal.ParseInt: covers the ASCII whitespace `int()` strips (tab to carriage return, 0x1C-0x1F and space), one sign and ASCII digits. The other forms `int()` accepts, such as underscores between digits and non-ASCII digits or spaces, are not modelled.
- Fetching the table and its partitions from the catalog (`get_table`, `get_partitions`) is I/O. The table and the partitions are parameters.
- Reading the deletion queue and the data mappers (`get_deletion_queue`, `get_data_mappers`) is I/O. They are parameters.
- Of the handler, only the executor check is modelled, as `Assembler.QueriesFor`. Sending the messages (`batch_sqs_msgs`) is left out.
- The catalog metadata the test stubs carry (timestamps, SerDe, locations, formats) is not read by the generator and is not modelled.
- Which error is reported when several values fail to cast: `Outcomes.Traverse` reports the first failing element in order, but the tests only show that generation fails.
- A composite match over columns the data mapper does not configure is kept and cast like any other, because no test shows another rule.
- Assembler.PartitionQueries: requires every partition to have one value per key. The catalog guarantees this, so a misaligned partition is not modelled as an error.
- Schema.ParseRender: the round trip covers well-formed trees: field names without `:`, `,` or brackets, primitive names without angle brackets whose commas all lie inside closed parentheses, and map bodies whose brackets balance. Other trees have no unambiguous catalog text.
- The scenario lemmas take names, ids and numbers as parameters. Their preconditions say what each test relies on, such as string columns, distinct ids, and integer ids given as `ShowInt(n)`. The literal strings of the tests are one instance of each.
- Schema.ParseType: the tests show only unclosed brackets as invalid. The model also refuses, as "schema not valid", a primitive name holding an angle bracket, a comma outside parentheses or an unclosed parenthesis; a map body whose brackets do not balance; a field name holding `:`, `,` or a bracket; and a comma with no field after it. None of these is catalog type syntax: a catalog primitive type has commas only inside its parameter list, as `decimal(10,2)` does, and that form is accepted at the top level and inside a struct.
- Assembler.GenerateAthenaQueries: when the applicable matches make no column group, for example simple matches on a data mapper with no configured column, no record is produced. The tests show this only for a queue with no applicable match.
- QueryScenarios.IntPartitionQuery and QueryScenarios.ScopeFilterQueries assume at least one configured column, as in their tests; with none there is no record.
- Classifier.SimpleGroups: Simple groups are emitted only when at least one simple match applies. A queue of only composite matches gives only Composite groups, as in the composite test.
