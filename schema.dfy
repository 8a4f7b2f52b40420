/** The column-type schema parser: turns a catalog (Hive) type string such as
    `struct<type:int,x:map<string,struct<a:int>>,info:struct<user_id:int,name:string>>`
    into a tree. Arrays are refused as soon as they are met; a map is kept as an
    opaque leaf that no dotted path may enter. */
module Schema {
  import opened Outcomes
  import opened Text
  import opened Brackets

  datatype TypeNode =
    | Primitive(name: string)
    | Struct(fields: seq<Field>)
    | MapType(inner: string)

  datatype Field = Field(name: string, ty: TypeNode)

  /** `get_inner_children`: what lies between `prefix` and `suffix`; the schema
      is not valid unless it starts with the one and ends with the other. */
  function InnerChildren(s: string, prefix: string, suffix: string): (r: Result<string>)
    ensures r.Ok? <==> StartsWith(s, prefix) && EndsWith(s, suffix)
    ensures r.Err? ==> r.error == SchemaNotValid
    ensures r.Ok? && |prefix| + |suffix| <= |s| && |suffix| > 0 ==> s == prefix + r.value + suffix
    ensures r.Ok? && |prefix| > 0 ==> |r.value| < |s|
  {
    if !(StartsWith(s, prefix) && EndsWith(s, suffix)) then Err(SchemaNotValid)
    else if |suffix| == 0 || |prefix| + |suffix| > |s| then Ok("")
    else
      assert s == s[..|prefix|] + s[|prefix|..|s| - |suffix|] + s[|s| - |suffix|..];
      Ok(s[|prefix|..|s| - |suffix|])
  }

  /** `get_nested_children`: the leading `kind<...>` of `s`, up to the `>` that
      closes its first `<`; the schema is not valid when that `<` is never closed. */
  function NestedChildren(s: string, kind: string): (r: Result<string>)
    ensures r.Ok? <==> StartsWith(s, kind + "<") && CloseIndex(s[|kind| + 1..], 1).Some?
    ensures r.Err? ==> r.error == SchemaNotValid
    ensures r.Ok? ==> StartsWith(s, r.value) && StartsWith(r.value, kind + "<")
    ensures r.Ok? ==> |r.value| > |kind| + 1 && r.value[|r.value| - 1] == '>'
  {
    var prefix := kind + "<";
    if !StartsWith(s, prefix) then Err(SchemaNotValid)
    else
      match CloseIndex(s[|prefix|..], 1)
      case None => Err(SchemaNotValid)
      case Some(k) =>
        assert s[|prefix|..][k - 1] == s[|prefix| + k - 1];
        Ok(s[..|prefix| + k])
  }

  /** The text of a field's type at the head of `rest`: a nested `struct`, `map`
      or `array` up to its closing bracket, anything else up to the next comma
      outside parentheses, so that `decimal(10,2)` stays whole. */
  function ChildType(rest: string): (r: Result<string>)
    ensures r.Ok? ==> StartsWith(rest, r.value)
  {
    if StartsWith(rest, "struct<") then NestedChildren(rest, "struct")
    else if StartsWith(rest, "map<") then NestedChildren(rest, "map")
    else if StartsWith(rest, "array<") then NestedChildren(rest, "array")
    else
      match TopComma(rest, 0)
      case None => Ok(rest)
      case Some(j) => Ok(rest[..j])
  }

  /** How a character changes the depth of parentheses. */
  function ParenStep(c: char): int {
    if c == '(' then 1 else if c == ')' then -1 else 0
  }

  /** Starting at parenthesis depth `d`, the position of the first comma of `s`
      that lies outside parentheses. */
  function TopComma(s: string, d: int): (r: Option<nat>)
    ensures r.Some? ==> r.value < |s| && s[r.value] == ','
    ensures r.None? && d <= 0 ==> s == [] || s[0] != ','
  {
    if s == [] then None
    else if s[0] == ',' && d <= 0 then Some(0)
    else Shift(TopComma(s[1..], d + ParenStep(s[0])), 1)
  }

  /** Parses a type string. Unbalanced or malformed text is not a valid
      schema: a primitive name holding an angle bracket or a comma outside its
      parameter list, a map body whose brackets do not match, and a struct
      body that is not a list of `name:type` separated by single commas. */
  function ParseType(t: string): (r: Result<TypeNode>)
    ensures r.Err? ==> r.error == SchemaNotValid || r.error == ArrayNotSupported
    ensures StartsWith(t, "array<") ==> r == Err(ArrayNotSupported)
    ensures r.Ok? && r.value.Primitive? ==> r.value.name == t && PrimitiveOk(t)
    ensures r.Ok? && r.value.MapType? ==> t == "map<" + r.value.inner + ">" && Balanced(r.value.inner)
    decreases |t|, 0
  {
    if StartsWith(t, "struct<") then
      assert t[0] == "struct<"[0];
      var inner :- InnerChildren(t, "struct<", ">");
      var fields :- ParseFields(inner);
      Ok(Struct(fields))
    else if StartsWith(t, "map<") then
      assert t[0] == "map<"[0];
      var inner :- InnerChildren(t, "map<", ">");
      if Balanced(inner) then
        LongerThanPrefix(t, "map<");
        Ok(MapType(inner))
      else Err(SchemaNotValid)
    else if StartsWith(t, "array<") then
      Err(ArrayNotSupported)
    else if PrimitiveOk(t) then
      Ok(Primitive(t))
    else
      Err(SchemaNotValid)
  }

  /** Parses the comma-separated `name:type` list inside `struct<...>`; a
      comma must be followed by another field. */
  function ParseFields(s: string): (r: Result<seq<Field>>)
    ensures r.Err? ==> r.error == SchemaNotValid || r.error == ArrayNotSupported
    ensures r.Ok? ==> (r.value == [] <==> s == []) && |r.value| <= |s|
    decreases |s|, 2
  {
    if s == [] then Ok([])
    else
      var head :- SplitField(s);
      var tail := head.1;
      if tail == [] then Ok([head.0])
      else if tail[0] == ',' && |tail| > 1 then
        var more :- ParseFields(tail[1..]);
        Ok([head.0] + more)
      else Err(SchemaNotValid)
  }

  /** Parses the first `name:type` of `s`; returns the field and what follows its type. */
  function SplitField(s: string): (r: Result<(Field, string)>)
    ensures r.Ok? ==> |r.value.1| < |s|
    ensures r.Err? ==> r.error == SchemaNotValid || r.error == ArrayNotSupported
    decreases |s|, 1
  {
    match IndexOf(s, ':')
    case None => Err(SchemaNotValid)
    case Some(i) =>
      if !NameOk(s[..i]) then Err(SchemaNotValid)
      else
        var rest := s[i + 1..];
        var child :- ChildType(rest);
        var ty :- ParseType(child);
        Ok((Field(s[..i], ty), rest[|child|..]))
  }

  // ---------------------------------------------------------------------
  // Rendering a tree back to catalog text, and the parse/render round trip.

  function Render(t: TypeNode): string
    decreases Size(t), 0
  {
    match t
    case Primitive(n) => n
    case MapType(inner) => "map<" + inner + ">"
    case Struct(fs) => "struct<" + RenderFields(fs) + ">"
  }

  function RenderField(f: Field): string
    decreases Size(f.ty), 1
  {
    f.name + ":" + Render(f.ty)
  }

  function RenderFields(fs: seq<Field>): string
    decreases FieldsSize(fs), 2
  {
    if fs == [] then ""
    else if |fs| == 1 then RenderField(fs[0])
    else RenderField(fs[0]) + "," + RenderFields(fs[1..])
  }

  function Size(t: TypeNode): nat {
    match t
    case Struct(fs) => 1 + FieldsSize(fs)
    case _ => 1
  }

  function FieldsSize(fs: seq<Field>): nat {
    if fs == [] then 0 else 1 + Size(fs[0].ty) + FieldsSize(fs[1..])
  }

  predicate NameOk(n: string) {
    forall i :: 0 <= i < |n| ==> n[i] !in ":,<>"
  }

  /** A primitive type name: no angle brackets, and its parameters, as in
      `decimal(10,2)` or `varchar(20)`, in closed parentheses that hold every comma. */
  predicate PrimitiveOk(n: string) {
    (forall i :: 0 <= i < |n| ==> n[i] !in "<>") && ParamsOk(n, 0)
  }

  /** Starting at parenthesis depth `d`, every comma of `s` lies inside
      parentheses, no `)` closes what is not open, and the depth ends at zero. */
  predicate ParamsOk(s: string, d: nat) {
    if s == [] then d == 0
    else if s[0] == ',' then d > 0 && ParamsOk(s[1..], d)
    else if s[0] == ')' then d > 0 && ParamsOk(s[1..], d - 1)
    else ParamsOk(s[1..], if s[0] == '(' then d + 1 else d)
  }

  /** A name without brackets, parentheses or commas is a primitive name. */
  lemma {:induction false} PlainParamsOk(n: string)
    requires forall i :: 0 <= i < |n| ==> n[i] !in "<>(),"
    ensures PrimitiveOk(n)
  {
    if n != [] {
      PlainParamsOk(n[1..]);
    }
  }

  /** Characters other than parentheses and commas leave the depth as it is. */
  lemma {:induction false} PlainThen(a: string, b: string, d: nat)
    requires forall i :: 0 <= i < |a| ==> a[i] !in "(),"
    requires ParamsOk(b, d)
    ensures ParamsOk(a + b, d)
  {
    if a == [] {
      assert a + b == b;
    } else {
      assert (a + b)[0] == a[0] && (a + b)[1..] == a[1..] + b;
      PlainThen(a[1..], b, d);
    }
  }

  /** A plain name with two plain parameters, such as `decimal(10,2)`, is a
      primitive name. */
  lemma TwoParamsPrimitive(n: string, a: string, b: string)
    requires forall i :: 0 <= i < |n| ==> n[i] !in "<>(),"
    requires forall i :: 0 <= i < |a| ==> a[i] !in "<>(),"
    requires forall i :: 0 <= i < |b| ==> b[i] !in "<>(),"
    ensures PrimitiveOk(n + "(" + a + "," + b + ")")
  {
    var list := "(" + a + "," + b + ")";
    CloseParam();
    PlainThen(b, ")", 1);
    InnerComma(b + ")");
    PlainThen(a, "," + (b + ")"), 1);
    OpenParam(a + ("," + (b + ")")));
    assert list == "(" + (a + ("," + (b + ")")));
    PlainThen(n, list, 0);
    assert n + "(" + a + "," + b + ")" == n + list;
    forall i | 0 <= i < |n + list| ensures (n + list)[i] !in "<>" {
      if i >= |n| + 1 && i < |n| + 1 + |a| {
        assert (n + list)[i] == a[i - |n| - 1];
      } else if i >= |n| + 2 + |a| && i < |n| + 2 + |a| + |b| {
        assert (n + list)[i] == b[i - |n| - 2 - |a|];
      }
    }
  }

  lemma CloseParam()
    ensures ParamsOk(")", 1)
  {
    assert ")"[1..] == [];
  }

  lemma InnerComma(s: string)
    requires ParamsOk(s, 1)
    ensures ParamsOk("," + s, 1)
  {
    assert ("," + s)[1..] == s;
  }

  lemma OpenParam(s: string)
    requires ParamsOk(s, 1)
    ensures ParamsOk("(" + s, 0)
  {
    assert ("(" + s)[1..] == s;
  }

  /** Parameters that close after a name whose parentheses are closed. */
  lemma {:induction false} ParamsAppend(a: string, b: string)
    requires ParamsOk(a, 0) && ParamsOk(b, 0)
    ensures ParamsOk(a + b, 0)
  {
    ParamsAppendFrom(a, b, 0);
  }

  lemma {:induction false} ParamsAppendFrom(a: string, b: string, d: nat)
    requires ParamsOk(a, d) && ParamsOk(b, 0)
    ensures ParamsOk(a + b, d)
  {
    if a == [] {
      assert a + b == b;
    } else {
      assert (a + b)[0] == a[0] && (a + b)[1..] == a[1..] + b;
      ParamsAppendFrom(a[1..], b, if a[0] == ')' then d - 1 else if a[0] == '(' then d + 1 else d);
    }
  }

  /** The first comma outside parentheses after a primitive name is the one
      that follows it. */
  lemma {:induction false} TopCommaAfter(n: string, tail: string, d: nat)
    requires ParamsOk(n, d) && (tail == [] || tail[0] == ',')
    ensures TopComma(n + tail, d) == if tail == [] then None else Some(|n|)
  {
    if n == [] {
      assert n + tail == tail;
    } else {
      assert (n + tail)[0] == n[0] && (n + tail)[1..] == n[1..] + tail;
      TopCommaAfter(n[1..], tail, if n[0] == ')' then d - 1 else if n[0] == '(' then d + 1 else d);
    }
  }

  /** Trees that catalog text can express unambiguously: field names without
      `:`, `,` or brackets, primitive names without `,` or brackets, and
      balanced map bodies. */
  predicate WellFormed(t: TypeNode)
    decreases Size(t), 1
  {
    match t
    case Primitive(n) => PrimitiveOk(n)
    case MapType(inner) => Balanced(inner)
    case Struct(fs) => FieldsWellFormed(fs)
  }

  predicate FieldsWellFormed(fs: seq<Field>)
    decreases FieldsSize(fs), 2
  {
    fs != [] ==> NameOk(fs[0].name) && WellFormed(fs[0].ty) && FieldsWellFormed(fs[1..])
  }

  /** A struct of one field is well formed when that field is. */
  lemma OneFieldWellFormed(f: Field)
    requires NameOk(f.name) && WellFormed(f.ty)
    ensures FieldsWellFormed([f])
  {
    assert [f][1..] == [];
  }

  lemma {:induction false} RenderBalanced(t: TypeNode)
    requires WellFormed(t)
    ensures Balanced(Render(t))
    decreases Size(t), 0
  {
    match t
    case Primitive(n) =>
      NoBracketsBalanced(n, 1);
    case MapType(inner) =>
      assert Render(t) == "map" + "<" + inner + ">";
      BalancedWrap("map", inner);
    case Struct(fs) =>
      RenderFieldsBalanced(fs);
      assert Render(t) == "struct" + "<" + RenderFields(fs) + ">";
      BalancedWrap("struct", RenderFields(fs));
  }

  lemma {:induction false} RenderFieldsBalanced(fs: seq<Field>)
    requires FieldsWellFormed(fs)
    ensures Balanced(RenderFields(fs))
    decreases FieldsSize(fs), 1
  {
    if fs != [] {
      var f := fs[0];
      NoBracketsBalanced(f.name + ":", 1);
      RenderBalanced(f.ty);
      BalancedAppend(f.name + ":", Render(f.ty));
      if |fs| > 1 {
        RenderFieldsBalanced(fs[1..]);
        NoBracketsBalanced(",", 1);
        BalancedAppend(RenderField(f), ",");
        BalancedAppend(RenderField(f) + ",", RenderFields(fs[1..]));
      } else {
        NoBracketsBalanced("", 1);
      }
    }
  }

  /** Text that has no `<` before its first comma cannot start a nested type. */
  lemma NotNestedStart(n: string, tail: string, p: string)
    requires PrimitiveOk(n) && (tail == [] || tail[0] == ',')
    requires |p| > 0 && p[|p| - 1] == '<' && ',' !in p
    ensures !StartsWith(n + tail, p)
  {
    var s := n + tail;
    if |p| <= |s| {
      var k := |p| - 1;
      if k < |n| {
        assert s[k] == n[k] != p[k];
        assert s[..|p|][k] != p[k];
      } else if k == |n| {
        assert s[k] == tail[0] != p[k];
        assert s[..|p|][k] != p[k];
      } else {
        assert s[|n|] == tail[0] != p[|n|];
        assert s[..|p|][|n|] != p[|n|];
      }
    }
  }

  lemma NotNestedPrimitive(n: string, tail: string)
    requires PrimitiveOk(n) && (tail == [] || tail[0] == ',')
    ensures !StartsWith(n + tail, "struct<")
    ensures !StartsWith(n + tail, "map<")
    ensures !StartsWith(n + tail, "array<")
  {
    NotNestedStart(n, tail, "struct<");
    NotNestedStart(n, tail, "map<");
    NotNestedStart(n, tail, "array<");
  }

  /** The type text at the head of `Render(t) + tail` is exactly `Render(t)`. */
  lemma ChildTypeRender(t: TypeNode, tail: string)
    requires WellFormed(t) && (tail == [] || tail[0] == ',')
    ensures ChildType(Render(t) + tail) == Ok(Render(t))
  {
    match t
    case Primitive(n) =>
      ChildTypePrimitive(n, tail);
    case MapType(inner) =>
      ChildTypeMap(inner, tail);
    case Struct(fs) =>
      RenderFieldsBalanced(fs);
      ChildTypeStruct(RenderFields(fs), tail);
  }

  lemma ChildTypeMap(inner: string, tail: string)
    requires Balanced(inner)
    ensures ChildType("map<" + inner + ">" + tail) == Ok("map<" + inner + ">")
  {
    var rest := "map<" + inner + ">" + tail;
    assert rest == "map" + "<" + inner + ">" + tail;
    assert "map<" + inner + ">" == "map" + "<" + inner + ">";
    assert !StartsWith(rest, "struct<") by {
      assert rest[0] == 'm';
    }
    NestedChildrenBalanced("map", inner, tail);
  }

  lemma ChildTypeStruct(body: string, tail: string)
    requires Balanced(body)
    ensures ChildType("struct<" + body + ">" + tail) == Ok("struct<" + body + ">")
  {
    assert "struct<" + body + ">" + tail == "struct" + "<" + body + ">" + tail;
    assert "struct<" + body + ">" == "struct" + "<" + body + ">";
    NestedChildrenBalanced("struct", body, tail);
  }

  lemma ChildTypePrimitive(n: string, tail: string)
    requires PrimitiveOk(n) && (tail == [] || tail[0] == ',')
    ensures ChildType(n + tail) == Ok(n)
  {
    var rest := n + tail;
    NotNestedPrimitive(n, tail);
    TopCommaAfter(n, tail, 0);
    if tail == [] {
      assert rest == n;
    } else {
      assert rest[..|n|] == n;
    }
  }

  /** A balanced body inside `kind<...>` is cut off exactly at its closing `>`. */
  lemma NestedChildrenBalanced(kind: string, body: string, tail: string)
    requires Balanced(body)
    ensures NestedChildren(kind + "<" + body + ">" + tail, kind) == Ok(kind + "<" + body + ">")
  {
    var prefix := kind + "<";
    var rest := kind + "<" + body + ">" + tail;
    assert rest == prefix + (body + ">" + tail);
    assert rest[|prefix|..] == body + ">" + tail;
    CloseIndexBalanced(body, tail);
    assert rest[..|prefix| + |body| + 1] == kind + "<" + body + ">";
  }

  /** Parsing the text of a well-formed tree gives the tree back. */
  lemma {:induction false} ParseRender(t: TypeNode)
    requires WellFormed(t)
    ensures ParseType(Render(t)) == Ok(t)
    decreases Size(t), 0
  {
    match t
    case Primitive(n) =>
      NotNestedPrimitive(n, []);
      assert n + [] == n;
    case MapType(inner) =>
      assert Render(t)[0] == 'm';
      assert InnerChildren(Render(t), "map<", ">") == Ok(inner);
    case Struct(fs) =>
      assert InnerChildren(Render(t), "struct<", ">") == Ok(RenderFields(fs));
      ParseFieldsRender(fs);
  }

  lemma {:induction false} ParseFieldsRender(fs: seq<Field>)
    requires FieldsWellFormed(fs)
    ensures ParseFields(RenderFields(fs)) == Ok(fs)
    decreases FieldsSize(fs), 2
  {
    if fs != [] {
      var f := fs[0];
      if |fs| == 1 {
        assert RenderField(f) + "" == RenderFields(fs) && fs == [f];
        SplitFieldRender(f, "");
        LastField(RenderFields(fs), f);
      } else {
        var tail := "," + RenderFields(fs[1..]);
        ParseFieldsRender(fs[1..]);
        RenderFieldsCons(fs);
        SplitFieldRender(f, tail);
        NextField(RenderFields(fs), f, tail, fs[1..]);
      }
    }
  }

  lemma RenderFieldsCons(fs: seq<Field>)
    requires |fs| > 1
    ensures RenderFields(fs) == RenderField(fs[0]) + ("," + RenderFields(fs[1..]))
    ensures ("," + RenderFields(fs[1..]))[1..] == RenderFields(fs[1..])
    ensures |"," + RenderFields(fs[1..])| > 1
    ensures fs == [fs[0]] + fs[1..]
  {
    var a, b := RenderField(fs[0]), RenderFields(fs[1..]);
    assert RenderFields(fs) == a + "," + b;
    CommaJoin(a, b);
    RenderFieldsNonEmpty(fs[1..]);
    assert fs == [fs[0]] + fs[1..];
  }

  lemma RenderFieldsNonEmpty(fs: seq<Field>)
    requires fs != []
    ensures |RenderFields(fs)| > 0
  {
    assert |RenderField(fs[0])| > 0;
  }

  lemma CommaJoin(a: string, b: string)
    ensures a + "," + b == a + ("," + b) && ("," + b)[1..] == b
  {
  }

  /** The step of ParseFields on text that is a single field. */
  lemma LastField(s: string, f: Field)
    requires SplitField(s) == Ok((f, ""))
    ensures ParseFields(s) == Ok([f])
  {
  }

  /** The step of ParseFields on a field followed by a comma and more fields. */
  lemma NextField(s: string, f: Field, tail: string, rest: seq<Field>)
    requires SplitField(s) == Ok((f, tail))
    requires |tail| > 1 && tail[0] == ',' && ParseFields(tail[1..]) == Ok(rest)
    ensures ParseFields(s) == Ok([f] + rest)
  {
  }

  lemma {:induction false} SplitFieldRender(f: Field, tail: string)
    requires NameOk(f.name) && WellFormed(f.ty) && (tail == [] || tail[0] == ',')
    ensures SplitField(RenderField(f) + tail) == Ok((f, tail))
    decreases Size(f.ty), 1
  {
    ChildTypeRender(f.ty, tail);
    ParseRender(f.ty);
    SplitFieldStep(f.name, Render(f.ty), tail, f.ty);
  }

  /** SplitField on `name:text` followed by `tail`, when the child type read
      from there is `text` and it parses to `ty`. */
  lemma SplitFieldStep(name: string, text: string, tail: string, ty: TypeNode)
    requires NameOk(name)
    requires ChildType(text + tail) == Ok(text) && ParseType(text) == Ok(ty)
    ensures SplitField(name + ":" + text + tail) == Ok((Field(name, ty), tail))
  {
    var s := name + ":" + text + tail;
    assert ':' !in name;
    assert s == name + ":" + (text + tail);
    assert s[|name|] == ':' && s[..|name|] == name;
    assert IndexOf(s, ':') == Some(|name|);
    assert s[|name| + 1..] == text + tail;
    assert (text + tail)[|text|..] == tail;
  }

  /** Conversely, text the parser accepts is exactly the text of the
      well-formed tree it returns; in particular its brackets are balanced. */
  lemma {:induction false} RenderParse(t: string)
    ensures ParseType(t).Ok? ==> WellFormed(ParseType(t).value) && Render(ParseType(t).value) == t
    decreases |t|, 0
  {
    if ParseType(t).Ok? {
      if StartsWith(t, "struct<") {
        LongerThanPrefix(t, "struct<");
        RenderParseFields(InnerChildren(t, "struct<", ">").value);
      } else if StartsWith(t, "map<") {
        LongerThanPrefix(t, "map<");
      }
    }
  }

  lemma {:induction false} RenderParseFields(s: string)
    ensures ParseFields(s).Ok? ==>
      FieldsWellFormed(ParseFields(s).value) && RenderFields(ParseFields(s).value) == s
    decreases |s|, 2
  {
    if s != [] && ParseFields(s).Ok? {
      var f, tail := SplitField(s).value.0, SplitField(s).value.1;
      RenderParseSplit(s);
      if tail == [] {
        OneFieldWellFormed(f);
        assert s == RenderField(f) + tail;
      } else {
        var more := ParseFields(tail[1..]).value;
        RenderParseFields(tail[1..]);
        FieldsCons(f, more);
        CommaSplit(tail);
      }
    }
  }

  /** Text with unbalanced brackets is never a valid schema. */
  lemma UnbalancedRejected(t: string)
    requires !Balanced(t)
    ensures ParseType(t).Err?
  {
    RenderParse(t);
    if ParseType(t).Ok? {
      RenderBalanced(ParseType(t).value);
    }
  }

  /** Text that starts with `kind<` and ends with `>` is longer than `kind<`. */
  lemma LongerThanPrefix(t: string, prefix: string)
    requires |prefix| > 0 && prefix[|prefix| - 1] == '<'
    requires StartsWith(t, prefix) && EndsWith(t, ">")
    ensures |t| > |prefix|
  {
    assert t[|t| - 1] == '>';
    assert t[|prefix| - 1] == t[..|prefix|][|prefix| - 1] == '<';
  }

  lemma CommaSplit(tail: string)
    requires tail != [] && tail[0] == ','
    ensures tail == "," + tail[1..]
  {
  }

  /** A well-formed field in front of non-empty well-formed fields. */
  lemma FieldsCons(f: Field, more: seq<Field>)
    requires NameOk(f.name) && WellFormed(f.ty) && FieldsWellFormed(more)
    requires |RenderFields(more)| > 0
    ensures FieldsWellFormed([f] + more)
    ensures RenderFields([f] + more) == RenderField(f) + "," + RenderFields(more)
  {
    var fs := [f] + more;
    assert fs[0] == f && fs[1..] == more;
  }

  lemma {:induction false} RenderParseSplit(s: string)
    ensures SplitField(s).Ok? ==>
      NameOk(SplitField(s).value.0.name) && WellFormed(SplitField(s).value.0.ty) &&
      s == RenderField(SplitField(s).value.0) + SplitField(s).value.1
    decreases |s|, 1
  {
    if SplitField(s).Ok? {
      var i := IndexOf(s, ':').value;
      var rest := s[i + 1..];
      assert NameOk(s[..i]) && ChildType(rest).Ok?;
      var child := ChildType(rest).value;
      assert ParseType(child).Ok?;
      var ty := ParseType(child).value;
      SplitFieldParts(s, i, child, ty);
      RenderParse(child);
      FieldText(s, i, child);
    }
  }

  /** The step of SplitField once its name, type text and type are known. */
  lemma SplitFieldParts(s: string, i: nat, child: string, ty: TypeNode)
    requires IndexOf(s, ':') == Some(i) && NameOk(s[..i])
    requires ChildType(s[i + 1..]) == Ok(child) && ParseType(child) == Ok(ty)
    ensures SplitField(s) == Ok((Field(s[..i], ty), s[i + 1..][|child|..]))
  {
  }

  lemma FieldText(s: string, i: nat, child: string)
    requires i < |s| && s[i] == ':' && StartsWith(s[i + 1..], child)
    ensures s == s[..i] + ":" + child + s[i + 1..][|child|..]
  {
    var rest := s[i + 1..];
    assert rest == child + rest[|child|..];
    assert s == s[..i] + [s[i]] + rest;
  }

  // ---------------------------------------------------------------------
  // What the parser refuses.

  /** A nested `kind<` whose bracket is never closed is not a valid schema. */
  lemma NestedChildrenUnclosed(kind: string, body: string)
    requires Above(body, 1)
    ensures NestedChildren(kind + "<" + body, kind) == Err(SchemaNotValid)
  {
    var s := kind + "<" + body;
    assert s[|kind| + 1..] == body;
    CloseIndexNever(body, 1);
  }

  /** A type that is an array is refused, whatever its element type. */
  lemma ArrayRejected(x: string)
    ensures ParseType("array<" + x).Err?
  {
    var t := "array<" + x;
    assert t[..6] == "array<";
    assert !StartsWith(t, "struct<") by { assert t[0] == 'a'; }
    assert !StartsWith(t, "map<") by { assert t[0] == 'a'; }
  }

  /** A field whose type is an array makes the field list unparseable. */
  lemma ArrayFieldRejected(name: string, x: string)
    requires ':' !in name
    ensures ParseFields(name + ":array<" + x).Err?
  {
    var s := name + ":array<" + x;
    assert s == name + ":" + ("array<" + x);
    assert s[|name|] == ':' && s[..|name|] == name;
    assert IndexOf(s, ':') == Some(|name|);
    assert s[|name| + 1..] == "array<" + x;
    ChildTypeArray(x);
  }

  lemma ChildTypeArray(x: string)
    ensures ChildType("array<" + x).Ok? ==> ParseType(ChildType("array<" + x).value).Err?
  {
    var rest := "array<" + x;
    assert !StartsWith(rest, "struct<") by { assert rest[0] == 'a'; }
    assert !StartsWith(rest, "map<") by { assert rest[0] == 'a'; }
    assert StartsWith(rest, "array<");
    var child := ChildType(rest);
    if child.Ok? {
      assert StartsWith(child.value, "array<");
      assert child.value == "array<" + child.value[6..];
      ArrayRejected(child.value[6..]);
    }
  }

  function Prepend(fs: seq<Field>, r: Result<seq<Field>>): Result<seq<Field>> {
    match r
    case Ok(gs) => Ok(fs + gs)
    case Err(e) => Err(e)
  }

  lemma ParseFieldsCons(s: string, f: Field, tail: string)
    requires s != [] && SplitField(s) == Ok((f, tail)) && |tail| > 1 && tail[0] == ','
    ensures ParseFields(s) == Prepend([f], ParseFields(tail[1..]))
  {
  }

  /** Well-formed fields in front of a field list are parsed and prepended. */
  lemma {:induction false} ParseFieldsAfter(fs: seq<Field>, z: string)
    requires FieldsWellFormed(fs) && fs != [] && z != []
    ensures ParseFields(RenderFields(fs) + "," + z) == Prepend(fs, ParseFields(z))
    decreases |fs|
  {
    var f := fs[0];
    var s := RenderFields(fs) + "," + z;
    if |fs| == 1 {
      assert ParseFields(s) == Prepend([f], ParseFields(z)) by {
        assert s == RenderField(f) + ("," + z);
        SplitFieldRender(f, "," + z);
        ParseFieldsCons(s, f, "," + z);
        assert ("," + z)[1..] == z;
      }
      assert fs == [f];
    } else {
      var more := RenderFields(fs[1..]) + "," + z;
      assert ParseFields(s) == Prepend([f], ParseFields(more)) by {
        assert s == RenderField(f) + ("," + more);
        SplitFieldRender(f, "," + more);
        ParseFieldsCons(s, f, "," + more);
        assert ("," + more)[1..] == more;
        RenderFieldsNonEmpty(fs[1..]);
      }
      ParseFieldsAfter(fs[1..], z);
      assert fs == [f] + fs[1..];
      PrependTwice(f, fs[1..], ParseFields(z));
    }
  }

  lemma PrependTwice(f: Field, fs: seq<Field>, r: Result<seq<Field>>)
    ensures Prepend([f], Prepend(fs, r)) == Prepend([f] + fs, r)
  {
    if r.Ok? {
      assert [f] + (fs + r.value) == ([f] + fs) + r.value;
    }
  }

  lemma StructRejected(body: string)
    requires ParseFields(body).Err?
    ensures ParseType("struct<" + body + ">").Err?
  {
    var t := "struct<" + body + ">";
    assert InnerChildren(t, "struct<", ">") == Ok(body);
  }

  /** A struct whose first field has an array type is refused. */
  lemma FirstFieldArrayRejected(name: string, x: string)
    requires ':' !in name
    ensures ParseType("struct<" + (name + ":array<" + x) + ">").Err?
  {
    ArrayFieldRejected(name, x);
    StructRejected(name + ":array<" + x);
  }

  /** A struct that reaches a field of array type after well-formed fields is refused. */
  lemma LaterFieldArrayRejected(fs: seq<Field>, name: string, x: string)
    requires FieldsWellFormed(fs) && fs != [] && ':' !in name
    ensures ParseType("struct<" + (RenderFields(fs) + "," + (name + ":array<" + x)) + ">").Err?
  {
    var field := name + ":array<" + x;
    ArrayFieldRejected(name, x);
    ParseFieldsAfter(fs, field);
    StructRejected(RenderFields(fs) + "," + field);
  }
}
