/** Resolves a dotted column id such as `user.info.name` against a table's
    columns to the primitive kind of the addressed leaf. */
module Resolver {
  import opened Outcomes
  import opened Text
  import opened Schema

  /** The primitive kinds that can be queried. */
  datatype Kind = Char | String | Varchar | BigInt | Int | SmallInt | TinyInt | Double | Float

  function KindName(k: Kind): (n: string)
    ensures PrimitiveOk(n)
  {
    var n := match k
      case Char => "char"
      case String => "string"
      case Varchar => "varchar"
      case BigInt => "bigint"
      case Int => "int"
      case SmallInt => "smallint"
      case TinyInt => "tinyint"
      case Double => "double"
      case Float => "float";
    PlainParamsOk(n);
    n
  }

  /** The kind a catalog primitive type name stands for, if it is supported. */
  function KindOf(name: string): (r: Option<Kind>)
    ensures r.Some? ==> KindName(r.value) == name
    ensures r.None? ==> forall k: Kind :: KindName(k) != name
    ensures forall k: Kind :: KindName(k) == name ==> r == Some(k)
  {
    if name == "char" then Some(Char)
    else if name == "string" then Some(String)
    else if name == "varchar" then Some(Varchar)
    else if name == "bigint" then Some(BigInt)
    else if name == "int" then Some(Int)
    else if name == "smallint" then Some(SmallInt)
    else if name == "tinyint" then Some(TinyInt)
    else if name == "double" then Some(Double)
    else if name == "float" then Some(Float)
    else None
  }

  /** A catalog column (or partition key): its name and its raw type string. */
  datatype Column = Column(name: string, typeText: string)

  /** The first column called `name`. */
  function FindColumn(cols: seq<Column>, name: string): (r: Option<Column>)
    ensures r.Some? ==> r.value in cols && r.value.name == name
    ensures r.Some? ==>
      exists i :: 0 <= i < |cols| && cols[i] == r.value && forall j :: 0 <= j < i ==> cols[j].name != name
    ensures r.None? ==> forall i :: 0 <= i < |cols| ==> cols[i].name != name
  {
    if cols == [] then None
    else if cols[0].name == name then Some(cols[0])
    else
      var r := FindColumn(cols[1..], name);
      if r.Some? then
        var i :| 0 <= i < |cols[1..]| && cols[1..][i] == r.value &&
          forall j :: 0 <= j < i ==> cols[1..][j].name != name;
        assert cols[i + 1] == r.value;
        assert forall j :: 1 <= j < i + 1 ==> cols[j] == cols[1..][j - 1];
        r
      else r
  }

  /** The first struct field called `name`. */
  function FindField(fs: seq<Field>, name: string): (r: Option<Field>)
    ensures r.Some? ==> r.value in fs && r.value.name == name
    ensures r.Some? ==>
      exists i :: 0 <= i < |fs| && fs[i] == r.value && forall j :: 0 <= j < i ==> fs[j].name != name
    ensures r.None? ==> forall i :: 0 <= i < |fs| ==> fs[i].name != name
  {
    if fs == [] then None
    else if fs[0].name == name then Some(fs[0])
    else
      var r := FindField(fs[1..], name);
      if r.Some? then
        var i :| 0 <= i < |fs[1..]| && fs[1..][i] == r.value &&
          forall j :: 0 <= j < i ==> fs[1..][j].name != name;
        assert fs[i + 1] == r.value;
        assert forall j :: 1 <= j < i + 1 ==> fs[j] == fs[1..][j - 1];
        r
      else r
  }

  /** Follows `path` through struct fields; `id` is the full dotted id, for
      error reports. The walk may end only on a supported primitive; a struct
      field that is not there is a lookup error, and going into a map or a
      primitive, or stopping on a struct or a map, is an unsupported type. */
  function Walk(t: TypeNode, path: seq<string>, id: string): (r: Result<Kind>)
    ensures r.Err? ==> r.error == UnsupportedType(id) || r.error == UnknownField(id)
    ensures path == [] ==> (r.Ok? <==> t.Primitive? && KindOf(t.name).Some?)
    ensures path != [] && !t.Struct? ==> r == Err(UnsupportedType(id))
    decreases |path|
  {
    if path == [] then
      match t
      case Primitive(n) =>
        (match KindOf(n)
         case Some(k) => Ok(k)
         case None => Err(UnsupportedType(id)))
      case _ => Err(UnsupportedType(id))
    else
      match t
      case Struct(fs) =>
        (match FindField(fs, path[0])
         case Some(f) => Walk(f.ty, path[1..], id)
         case None => Err(UnknownField(id)))
      case _ => Err(UnsupportedType(id))
  }

  /** The kind of the leaf that the dotted `id` addresses among `cols`. */
  function ResolveKind(cols: seq<Column>, id: string): (r: Result<Kind>)
    ensures FindColumn(cols, Split(id, '.')[0]).None? ==> r == Err(UnknownColumn(Split(id, '.')[0]))
    ensures r.Err? ==> r.error in {UnknownColumn(Split(id, '.')[0]), SchemaNotValid, ArrayNotSupported,
                                   UnsupportedType(id), UnknownField(id)}
  {
    var parts := Split(id, '.');
    match FindColumn(cols, parts[0])
    case None => Err(UnknownColumn(parts[0]))
    case Some(col) =>
      var t :- ParseType(col.typeText);
      Walk(t, parts[1..], id)
  }

  // ---------------------------------------------------------------------
  // A reference definition of the walk, and what it implies.

  /** The subtree that `path` reaches through struct fields, if any. */
  function NodeAt(t: TypeNode, path: seq<string>): Option<TypeNode>
    decreases |path|
  {
    if path == [] then Some(t)
    else if !t.Struct? then None
    else
      match FindField(t.fields, path[0])
      case None => None
      case Some(f) => NodeAt(f.ty, path[1..])
  }

  /** The walk succeeds exactly when the path leads, through struct fields
      only, to a primitive of a supported kind, and then it returns that kind. */
  lemma {:induction false} WalkMeaning(t: TypeNode, path: seq<string>, id: string)
    ensures Walk(t, path, id).Ok? <==>
      NodeAt(t, path).Some? && NodeAt(t, path).value.Primitive? &&
      KindOf(NodeAt(t, path).value.name).Some?
    ensures Walk(t, path, id).Ok? ==>
      NodeAt(t, path) == Some(Primitive(KindName(Walk(t, path, id).value)))
    decreases |path|
  {
    if path != [] && t.Struct? {
      match FindField(t.fields, path[0])
      case None =>
      case Some(f) => WalkMeaning(f.ty, path[1..], id);
    }
  }

  /** No path goes through a map: once a prefix of the path reaches a map,
      nothing further down can be addressed. */
  lemma {:induction false} NodeAtThroughMap(t: TypeNode, path: seq<string>, i: nat)
    requires i < |path| && NodeAt(t, path[..i]).Some? && NodeAt(t, path[..i]).value.MapType?
    ensures NodeAt(t, path) == None
    decreases |path|
  {
    if i > 0 {
      assert path[..i][0] == path[0];
      var f := FindField(t.fields, path[0]).value;
      assert path[..i][1..] == path[1..][..i - 1];
      NodeAtThroughMap(f.ty, path[1..], i - 1);
    } else {
      assert path[..0] == [];
    }
  }

  lemma WalkThroughMapFails(t: TypeNode, path: seq<string>, i: nat, id: string)
    requires i < |path| && NodeAt(t, path[..i]).Some? && NodeAt(t, path[..i]).value.MapType?
    ensures Walk(t, path, id).Err?
  {
    NodeAtThroughMap(t, path, i);
    WalkMeaning(t, path, id);
  }

  /** Resolving `name.p1.p2...` on a column whose type string is the text of a
      well-formed tree is the walk of that tree along `p1.p2...`. */
  lemma ResolveRendered(cols: seq<Column>, name: string, path: seq<string>, t: TypeNode)
    requires FindColumn(cols, name) == Some(Column(name, Render(t)))
    requires WellFormed(t)
    requires '.' !in name && forall i :: 0 <= i < |path| ==> '.' !in path[i]
    ensures ResolveKind(cols, Join([name] + path, '.')) == Walk(t, path, Join([name] + path, '.'))
  {
    var parts := [name] + path;
    forall i | 0 <= i < |parts| ensures '.' !in parts[i] {
      if i > 0 { assert parts[i] == path[i - 1]; }
    }
    SplitJoin(parts, '.');
    ParseRender(t);
    assert parts[1..] == path;
  }

  /** A plain id naming a column of primitive type resolves to that type's
      kind, or is refused when the type is not one the queries support. */
  lemma ResolvePlain(cols: seq<Column>, name: string, ty: string)
    requires FindColumn(cols, name) == Some(Column(name, ty))
    requires '.' !in name && PrimitiveOk(ty)
    ensures KindOf(ty).Some? ==> ResolveKind(cols, name) == Ok(KindOf(ty).value)
    ensures KindOf(ty).None? ==> ResolveKind(cols, name) == Err(UnsupportedType(name))
  {
    var t := Primitive(ty);
    ResolveRendered(cols, name, [], t);
  }

  /** A dotted id whose column's type string does not parse fails with the parse error. */
  lemma ResolveBadSchema(cols: seq<Column>, name: string, path: seq<string>, ty: string)
    requires FindColumn(cols, name) == Some(Column(name, ty)) && ParseType(ty).Err?
    requires '.' !in name && forall i :: 0 <= i < |path| ==> '.' !in path[i]
    ensures ResolveKind(cols, Join([name] + path, '.')) == Err(ParseType(ty).error)
  {
    var parts := [name] + path;
    forall i | 0 <= i < |parts| ensures '.' !in parts[i] {
      if i > 0 { assert parts[i] == path[i - 1]; }
    }
    SplitJoin(parts, '.');
  }
}
