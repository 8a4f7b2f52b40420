/** The documented behaviour of the query compiler on concrete inputs, derived
    from the general properties of the model. Column names are parameters
    (any name without a dot, such as `test_col`), type strings are those of
    the documented cases. */
module Scenarios {
  import opened Outcomes
  import opened Text
  import opened Decimal
  import opened Brackets
  import opened Schema
  import opened Resolver
  import opened Caster

  /** A table with the one column `name` of type `ty`. */
  function OneColumn(name: string, ty: string): seq<Column> {
    [Column(name, ty)]
  }

  lemma CastOneColumn(v: Raw, name: string, k: Kind)
    requires '.' !in name
    ensures Cast(v, name, OneColumn(name, KindName(k))) == CastToKind(v, k)
  {
    ResolvePlain(OneColumn(name, KindName(k)), name, KindName(k));
  }

  /** The string types (`char`, `string`, `varchar`) take a text value as it is. */
  lemma ConvertsStringTypes(v: string, name: string, k: Kind)
    requires '.' !in name && IsStringKind(k)
    ensures Cast(RawStr(v), name, OneColumn(name, KindName(k))) == Ok(Str(v))
  {
    CastOneColumn(RawStr(v), name, k);
  }

  /** The integer types (`bigint`, `int`, `smallint`, `tinyint`) read the text "2" as the number 2. */
  lemma ConvertsIntegerTypes(name: string, k: Kind)
    requires '.' !in name && IsIntegerKind(k)
    ensures Cast(RawStr("2"), name, OneColumn(name, KindName(k))) == Ok(Integer(2))
  {
    ParseDigits("2");
    assert DigitsValue("2") == 2 by { assert "2"[..0] == []; }
    CastOneColumn(RawStr("2"), name, k);
  }

  /** The floating-point types (`double`, `float`) keep the value they are given. */
  lemma KeepsFloatingTypes(v: string, name: string, k: Kind)
    requires '.' !in name && !IsStringKind(k) && !IsIntegerKind(k)
    ensures Cast(RawStr(v), name, OneColumn(name, KindName(k))) == Ok(Real(RawStr(v)))
  {
    CastOneColumn(RawStr(v), name, k);
  }

  /** Text that is not an integer does not convert to an integer column. */
  lemma UnconvertableMatch(name: string, k: Kind)
    requires '.' !in name && IsIntegerKind(k)
    ensures Cast(RawStr("mystr"), name, OneColumn(name, KindName(k))) == Err(NotAnInteger("mystr"))
  {
    var text := "mystr";
    assert text[0] == 'm';
    ParseNonNumeric(text);
    CastOneColumn(RawStr(text), name, k);
  }

  /** An id naming no column of the table is refused. */
  lemma UnknownColumnRejected(name: string, other: string, ty: string)
    requires '.' !in other && other != name
    ensures Cast(RawStr("mystr"), other, OneColumn(name, ty)) == Err(UnknownColumn(other))
  {
    assert Split(other, '.') == [other];
  }

  /** A column of an unsupported primitive type such as `decimal` is refused,
      with the documented message. */
  lemma UnsupportedTypeRejected(name: string)
    requires '.' !in name
    ensures Cast(RawStr("2.56"), name, OneColumn(name, "decimal")) == Err(UnsupportedType(name))
    ensures Message(UnsupportedType(name)) == "Column " + name + " is not a supported column type for querying"
  {
    DecimalPlain();
    ResolvePlain(OneColumn(name, "decimal"), name, "decimal");
  }

  lemma DecimalPlain()
    ensures PrimitiveOk("decimal") && KindOf("decimal").None?
  {
    DecimalName();
    assert forall k: Kind :: KindName(k) != "decimal" by {
      forall k: Kind ensures KindName(k) != "decimal" {
        assert |"decimal"| == 7 && "decimal"[0] == 'd';
      }
    }
  }

  lemma DecimalName()
    ensures PrimitiveOk("decimal")
  {
    PlainParamsOk("decimal");
  }

  /** A primitive type with parameters, such as `decimal(10,2)`, is read whole:
      a column of that type is refused as unsupported, not as an invalid schema. */
  lemma ParamTypeUnsupported(v: Raw, name: string)
    requires '.' !in name
    ensures Cast(v, name, OneColumn(name, "decimal(10,2)")) == Err(UnsupportedType(name))
  {
    DecimalParamsOk();
    ResolvePlain(OneColumn(name, "decimal(10,2)"), name, "decimal(10,2)");
  }

  lemma DecimalParamsOk()
    ensures PrimitiveOk("decimal(10,2)") && KindOf("decimal(10,2)").None?
  {
    DecimalPrimitive();
    DecimalUnknown();
  }

  lemma DecimalPrimitive()
    ensures PrimitiveOk("decimal(10,2)")
  {
    TwoParamsPrimitive("decimal", "10", "2");
    assert "decimal(10,2)" == "decimal" + "(" + "10" + "," + "2" + ")";
  }

  lemma DecimalUnknown()
    ensures KindOf("decimal(10,2)").None?
  {
    assert forall k: Kind :: |KindName(k)| < |"decimal(10,2)"|;
  }

  /** `struct<p:T,n:string>` for a primitive type text `T`. */
  function ParamStruct(ty: string): TypeNode {
    Struct([Field("p", Primitive(ty)), Field("n", Primitive("string"))])
  }

  lemma ParamStructWellFormed(ty: string)
    requires PrimitiveOk(ty)
    ensures WellFormed(ParamStruct(ty))
  {
    UserNamesOk();
    var fs := ParamStruct(ty).fields;
    assert fs[1..] == [Field("n", Primitive("string"))];
    OneFieldWellFormed(fs[1]);
    assert NameOk("p");
  }

  lemma ParamStructText(ty: string)
    ensures Render(ParamStruct(ty)) == "struct<p:" + ty + ",n:string>"
  {
    var fs := ParamStruct(ty).fields;
    assert fs[1..] == [Field("n", Primitive("string"))];
    var a, b := RenderField(fs[0]), RenderField(fs[1]);
    assert fs[0] == Field("p", Primitive(ty)) && Render(fs[0].ty) == ty;
    assert a == "p" + ":" + ty;
    assert b == "n" + ":" + "string";
    assert RenderFields(fs) == a + "," + b;
    assert "struct<" + (a + "," + b) + ">" == "struct<p:" + ty + ",n:string>";
  }

  lemma WalkParamStruct(ty: string, id: string)
    requires KindOf(ty).None?
    ensures Walk(ParamStruct(ty), ["n"], id) == Ok(String)
    ensures Walk(ParamStruct(ty), ["p"], id) == Err(UnsupportedType(id))
  {
    var fs := ParamStruct(ty).fields;
    assert fs[0].name != "n";
    assert fs[1..] == [Field("n", Primitive("string"))];
    assert FindField(fs, "n") == Some(fs[1]);
    assert ["n"][1..] == [] && ["p"][1..] == [];
  }

  /** The column `name` of type `struct<p:T,n:string>`, and the dotted id of
      one of its fields, resolve as the walk of the parsed tree. */
  lemma ResolveParamStruct(name: string, ty: string, field: string)
    requires '.' !in name && '.' !in field && PrimitiveOk(ty)
    ensures ResolveKind(OneColumn(name, "struct<p:" + ty + ",n:string>"), Join([name, field], '.')) ==
      Walk(ParamStruct(ty), [field], Join([name, field], '.'))
  {
    ParamStructWellFormed(ty);
    ParamStructText(ty);
    assert [name] + [field] == [name, field];
    ResolveRendered(OneColumn(name, "struct<p:" + ty + ",n:string>"), name, [field], ParamStruct(ty));
  }

  /** In `struct<p:T,n:string>`, for any primitive `T`, the field `n` is a
      string leaf. */
  lemma ParamStructString(v: string, name: string, ty: string)
    requires '.' !in name && PrimitiveOk(ty) && KindOf(ty).None?
    ensures Cast(RawStr(v), Join([name, "n"], '.'), OneColumn(name, "struct<p:" + ty + ",n:string>")) ==
      Ok(Str(v))
  {
    ResolveParamStruct(name, ty, "n");
    WalkParamStruct(ty, Join([name, "n"], '.'));
  }

  /** In `struct<p:T,n:string>`, for a primitive `T` the queries do not
      support, the field `p` is refused as unsupported. */
  lemma ParamStructUnsupported(v: string, name: string, ty: string)
    requires '.' !in name && PrimitiveOk(ty) && KindOf(ty).None?
    ensures Cast(RawStr(v), Join([name, "p"], '.'), OneColumn(name, "struct<p:" + ty + ",n:string>")) ==
      Err(UnsupportedType(Join([name, "p"], '.')))
  {
    ResolveParamStruct(name, ty, "p");
    WalkParamStruct(ty, Join([name, "p"], '.'));
  }

  /** `struct<p:decimal(10,2),n:string>`: the comma inside `decimal(10,2)` does
      not end the field `p`, so the struct parses and both fields resolve. */
  lemma DecimalStructLeaves(v: string, name: string)
    requires '.' !in name
    ensures Cast(RawStr(v), Join([name, "n"], '.'), OneColumn(name, "struct<p:" + "decimal(10,2)" + ",n:string>")) ==
      Ok(Str(v))
    ensures Cast(RawStr(v), Join([name, "p"], '.'), OneColumn(name, "struct<p:" + "decimal(10,2)" + ",n:string>")) ==
      Err(UnsupportedType(Join([name, "p"], '.')))
  {
    DecimalParamsOk();
    ParamStructString(v, name, "decimal(10,2)");
    ParamStructUnsupported(v, name, "decimal(10,2)");
  }

  /** An unclosed struct is not a valid schema. */
  lemma InvalidSchemaInnerChildren()
    ensures InnerChildren("struct<name:string", "struct<", ">") == Err(SchemaNotValid)
    ensures Message(SchemaNotValid) == "Column schema is not valid"
  {
    assert "struct<name:string"[17] == 'g';
  }

  /** An unclosed nested struct is not a valid schema. */
  lemma InvalidSchemaNestedChildren()
    ensures NestedChildren("struct" + "<" + ("name:string,age:int,s:struct" + "<" + "n:int" + ">" + ",b:string"), "struct")
      == Err(SchemaNotValid)
  {
    UnclosedBody();
    NestedChildrenUnclosed("struct", "name:string,age:int,s:struct" + "<" + "n:int" + ">" + ",b:string");
  }

  /** The body after the opening `struct<` never gets back to depth zero. */
  lemma UnclosedBody()
    ensures Above("name:string,age:int,s:struct" + "<" + "n:int" + ">" + ",b:string", 1)
  {
    UnclosedAfterField("name:string,age:int,s:struct", "n:int", ",b:string");
  }

  /** A closed `head<inner>` followed by more text stays above depth zero. */
  lemma UnclosedAfterField(head: string, inner: string, tail: string)
    requires NoBrackets(head) && NoBrackets(inner) && NoBrackets(tail)
    ensures Above(head + "<" + inner + ">" + tail, 1)
  {
    NoBracketsBalanced(inner, 1);
    BalancedWrap(head, inner);
    NoBracketsBalanced(tail, 1);
    AboveAppend(head + "<" + inner + ">", tail, 1);
  }

  // ---------------------------------------------------------------------
  // Ids that go into a struct.

  /** `struct<type:int,x:map<B>,info:struct<user_id:int,name:string>>` for a
      map body `B`; the documented case has `B` = `string,struct<a:int>`. */
  function UserType(mapBody: string): TypeNode {
    Struct([
      Field("type", Primitive("int")),
      Field("x", MapType(mapBody)),
      Field("info", InfoType())])
  }

  lemma UserNamesOk()
    ensures NameOk("type") && NameOk("x") && NameOk("info") && NameOk("user_id") && NameOk("name")
    ensures PrimitiveOk("int") && PrimitiveOk("string")
  {
    assert KindName(Int) == "int" && KindName(String) == "string";
  }

  /** The map bodies of the documented types are balanced. */
  lemma MapBodiesBalanced()
    ensures Balanced("string,struct" + "<" + "a:int" + ">")
    ensures Balanced("string,struct" + "<" + "x:int" + ">")
  {
    WrappedBalanced("string,struct", "a:int");
    WrappedBalanced("string,struct", "x:int");
  }

  lemma WrappedBalanced(head: string, inner: string)
    requires NoBrackets(head) && NoBrackets(inner)
    ensures Balanced(head + "<" + inner + ">")
  {
    NoBracketsBalanced(inner, 1);
    BalancedWrap(head, inner);
  }

  function InfoType(): TypeNode {
    Struct([Field("user_id", Primitive("int")), Field("name", Primitive("string"))])
  }

  lemma InfoTypeWellFormed()
    ensures WellFormed(InfoType())
  {
    UserNamesOk();
    assert FieldsWellFormed([Field("name", Primitive("string"))]);
  }

  lemma UserTypeWellFormed(mapBody: string)
    requires Balanced(mapBody)
    ensures WellFormed(UserType(mapBody))
  {
    UserNamesOk();
    InfoTypeWellFormed();
    var fs := UserType(mapBody).fields;
    assert fs[1..][1..] == [Field("info", InfoType())];
    assert FieldsWellFormed(fs[1..][1..]);
    assert WellFormed(fs[1].ty);
    assert FieldsWellFormed(fs[1..]);
  }

  /** Casting against the `user` column: resolution walks the tree. */
  lemma CastUser(v: Raw, name: string, mapBody: string, path: seq<string>)
    requires '.' !in name && Balanced(mapBody)
    requires forall i :: 0 <= i < |path| ==> '.' !in path[i]
    ensures var id := Join([name] + path, '.');
      Cast(v, id, OneColumn(name, Render(UserType(mapBody)))) ==
        (match Walk(UserType(mapBody), path, id)
         case Ok(k) => CastToKind(v, k)
         case Err(e) => Err(e))
  {
    UserTypeWellFormed(mapBody);
    ResolveRendered(OneColumn(name, Render(UserType(mapBody))), name, path, UserType(mapBody));
  }

  lemma InfoField(mapBody: string)
    ensures FindField(UserType(mapBody).fields, "info") == Some(Field("info", InfoType()))
  {
    var fs := UserType(mapBody).fields;
    assert fs[0].name != "info" by { assert fs[0].name[0] == 't'; }
    assert fs[1].name != "info" by { assert |fs[1].name| == 1; }
    assert fs[1..][1..] == [Field("info", InfoType())];
    assert FindField(fs[1..][1..], "info") == Some(Field("info", InfoType()));
    assert FindField(fs[1..], "info") == Some(Field("info", InfoType()));
  }

  lemma WalkInfoName(mapBody: string, id: string)
    ensures Walk(UserType(mapBody), ["info", "name"], id) == Ok(String)
  {
    InfoField(mapBody);
    assert ["info", "name"][1..] == ["name"];
    assert FindField(InfoType().fields, "name") == Some(Field("name", Primitive("string"))) by {
      var fs := InfoType().fields;
      assert fs[0].name != "name" by { assert |fs[0].name| == 7; }
    }
  }

  /** `user.info.name` is a string leaf: "john_doe" stays as it is. */
  lemma NestedStringLeaf(name: string, mapBody: string)
    requires '.' !in name && Balanced(mapBody)
    ensures Cast(RawStr("john_doe"), Join([name, "info", "name"], '.'), OneColumn(name, Render(UserType(mapBody)))) ==
      Ok(Str("john_doe"))
  {
    var path := ["info", "name"];
    assert '.' !in path[0] && '.' !in path[1];
    assert [name] + path == [name, "info", "name"];
    WalkInfoName(mapBody, Join([name] + path, '.'));
    CastUser(RawStr("john_doe"), name, mapBody, path);
  }

  lemma WalkInfoUserId(mapBody: string, id: string)
    ensures Walk(UserType(mapBody), ["info", "user_id"], id) == Ok(Int)
  {
    InfoField(mapBody);
    assert ["info", "user_id"][1..] == ["user_id"];
  }

  lemma WalkType(mapBody: string, id: string)
    ensures Walk(UserType(mapBody), ["type"], id) == Ok(Int)
  {
    assert ["type"][1..] == [];
  }

  lemma ReadsOne()
    ensures ParseInt("1") == Some(1)
  {
    ParseDigits("1");
    assert "1"[..0] == [];
  }

  lemma UserIdKind(v: Raw, name: string, mapBody: string)
    requires '.' !in name && Balanced(mapBody)
    ensures Cast(v, Join([name, "info", "user_id"], '.'), OneColumn(name, Render(UserType(mapBody)))) == CastToKind(v, Int)
  {
    var path := ["info", "user_id"];
    assert '.' !in path[0] && '.' !in path[1];
    assert [name] + path == [name, "info", "user_id"];
    WalkInfoUserId(mapBody, Join([name] + path, '.'));
    CastUser(v, name, mapBody, path);
  }

  /** `user.info.user_id` is an int leaf: the decimal text of a number, such
      as "1234567890", is read as that number. */
  lemma NestedIntLeaf(name: string, mapBody: string, n: int)
    requires '.' !in name && Balanced(mapBody)
    ensures Cast(RawStr(ShowInt(n)), Join([name, "info", "user_id"], '.'), OneColumn(name, Render(UserType(mapBody)))) ==
      Ok(Integer(n))
  {
    UserIdKind(RawStr(ShowInt(n)), name, mapBody);
    ParseShowInt(n);
  }

  /** `user.type` is an int field directly under the column: "1" is read as 1. */
  lemma TopLevelIntField(name: string, mapBody: string)
    requires '.' !in name && Balanced(mapBody)
    ensures Cast(RawStr("1"), Join([name, "type"], '.'), OneColumn(name, Render(UserType(mapBody)))) == Ok(Integer(1))
  {
    var path := ["type"];
    assert '.' !in path[0];
    assert [name] + path == [name, "type"];
    WalkType(mapBody, Join([name] + path, '.'));
    CastUser(RawStr("1"), name, mapBody, path);
    ReadsOne();
  }

  // ---------------------------------------------------------------------
  // Ids that would have to go through an array or a map: `user.x`.

  /** A column whose type is an array is refused, whatever the element type:
      `array<x:int>`, `array<struct<x:int>>`, `array<struct<a:int,b:struct<x:int>>>`. */
  lemma ArrayColumnRejected(v: Raw, name: string, x: string)
    requires '.' !in name
    ensures Cast(v, Join([name, "x"], '.'), OneColumn(name, "array<" + x)).Err?
  {
    ArrayRejected(x);
    assert '.' !in ["x"][0];
    assert [name] + ["x"] == [name, "x"];
    ResolveBadSchema(OneColumn(name, "array<" + x), name, ["x"], "array<" + x);
  }

  lemma ArrayColumnsRejected(v: Raw, name: string)
    requires '.' !in name
    ensures Cast(v, Join([name, "x"], '.'), OneColumn(name, "array<" + "x:int>")).Err?
    ensures Cast(v, Join([name, "x"], '.'), OneColumn(name, "array<" + "struct<x:int>>")).Err?
    ensures Cast(v, Join([name, "x"], '.'), OneColumn(name, "array<" + "struct<a:int,b:struct<x:int>>>")).Err?
  {
    ArrayColumnRejected(v, name, "x:int>");
    ArrayColumnRejected(v, name, "struct<x:int>>");
    ArrayColumnRejected(v, name, "struct<a:int,b:struct<x:int>>>");
  }

  /** A struct whose field is an array is refused: `struct<a:array<struct<a:int,x:int>>>`. */
  lemma ArrayFieldColumnRejected(v: Raw, name: string)
    requires '.' !in name
    ensures Cast(v, Join([name, "x"], '.'), OneColumn(name, "struct<" + ("a" + ":array<" + "struct<a:int,x:int>>") + ">")).Err?
  {
    var ty := "struct<" + ("a" + ":array<" + "struct<a:int,x:int>>") + ">";
    FirstFieldArrayRejected("a", "struct<a:int,x:int>>");
    assert '.' !in ["x"][0];
    assert [name] + ["x"] == [name, "x"];
    ResolveBadSchema(OneColumn(name, ty), name, ["x"], ty);
  }

  /** A map column cannot be entered: `map<string,struct<x:int>>`. */
  lemma MapColumnRejected(v: Raw, name: string, body: string)
    requires '.' !in name && Balanced(body)
    ensures Cast(v, Join([name, "x"], '.'), OneColumn(name, Render(MapType(body)))).Err?
  {
    var path := ["x"];
    assert '.' !in path[0];
    assert [name] + path == [name, "x"];
    ResolveRendered(OneColumn(name, Render(MapType(body))), name, path, MapType(body));
  }

  /** A map field cannot be entered either, and `x` is no field of the
      struct that holds it: `struct<a:map<string,struct<x:int>>>`. */
  lemma MapFieldColumnRejected(v: Raw, name: string, body: string)
    requires '.' !in name && Balanced(body)
    ensures Cast(v, Join([name, "x"], '.'), OneColumn(name, Render(Struct([Field("a", MapType(body))])))).Err?
  {
    var t := Struct([Field("a", MapType(body))]);
    assert NameOk("a");
    OneFieldWellFormed(Field("a", MapType(body)));
    var path := ["x"];
    assert '.' !in path[0];
    assert [name] + path == [name, "x"];
    ResolveRendered(OneColumn(name, Render(t)), name, path, t);
  }
}
