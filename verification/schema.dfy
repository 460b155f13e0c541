/** What the generator infers from one JSON object: the Dart type of every
    entry, the nested class an entry asks for, and which serialisation
    methods a class gets from its name. */
module Schema {
  import opened Text
  import opened JsonValue
  import Naming

  datatype Option<T> = None | Some(value: T)

  datatype Primitive = StringType | NumType | BoolType | DynamicType

  datatype TypeRef =
    | Prim(p: Primitive)
    | ListOf(elem: TypeRef)
    | ClassRef(name: string)

  /** A nested class to generate: its name and the JSON value it is built
      from. */
  datatype Nested = Nested(name: string, json: Json)

  /** The outcome of inspecting one entry: its type and, for an object or an
      array of objects, the nested class the generator recurses into. */
  datatype Inference = Inference(typ: TypeRef, nested: Option<Nested>)

  /** One generated field: the JSON key, the Dart variable name and its type. */
  datatype Field = Field(key: string, varName: string, typ: TypeRef)

  /** One generated class before rendering. */
  datatype ClassBlock = ClassBlock(name: string, fields: seq<Field>)

  /** The Dart spelling of a type. */
  function DartName(t: TypeRef): string
  {
    match t
    case Prim(StringType) => "String"
    case Prim(NumType) => "num"
    case Prim(BoolType) => "bool"
    case Prim(DynamicType) => "dynamic"
    case ListOf(e) => "List<" + DartName(e) + ">"
    case ClassRef(n) => n
  }

  /** The generated class a type mentions, if any. */
  function ReferencedClass(t: TypeRef): Option<string>
  {
    match t
    case ClassRef(n) => Some(n)
    case ListOf(e) => ReferencedClass(e)
    case Prim(_) => None
  }

  /** The element type of a list whose first element is not an object:
      taken from `typeof value[0]`, which is `undefined` for an empty array. */
  function ListElementType(items: seq<Json>): Primitive
  {
    var elementType := if |items| == 0 then "undefined" else TypeOf(items[0]);
    if elementType == "string" then StringType
    else if elementType == "number" then NumType
    else DynamicType
  }

  /** Type inference for one entry, following the `typeof` tests of the
      generator in order. The contract states what the recursion relies on:
      a nested class is asked for exactly when the type names one, its name
      extends the parent's, and it is built from the value itself or from the
      first element of an array. `InferRules` states the rules per JSON kind. */
  function Infer(className: string, key: string, value: Json): (r: Inference)
    ensures r.nested.Some? <==> ReferencedClass(r.typ).Some?
    ensures r.nested.Some? ==> ReferencedClass(r.typ) == Some(r.nested.value.name)
    ensures r.nested.Some? ==> className <= r.nested.value.name && IsComposite(r.nested.value.json)
    ensures r.nested.Some? && value.JObj? ==> r.nested.value.json == value
    ensures r.nested.Some? && !value.JObj? ==>
      value.JArr? && |value.items| > 0 && r.nested.value.json == value.items[0]
  {
    if TypeOf(value) == "string" then Inference(Prim(StringType), None)
    else if TypeOf(value) == "number" then Inference(Prim(NumType), None)
    else if TypeOf(value) == "boolean" then Inference(Prim(BoolType), None)
    else if value.JNull? then Inference(Prim(DynamicType), None)
    else if value.JArr? then
      if |value.items| > 0 && TypeOf(value.items[0]) == "object" && !value.items[0].JNull? then
        var nestedClass := className + Naming.PascalCase(key) + "Item";
        assert className <= nestedClass;
        Inference(ListOf(ClassRef(nestedClass)), Some(Nested(nestedClass, value.items[0])))
      else
        Inference(ListOf(Prim(ListElementType(value.items))), None)
    else
      // Every remaining value is an object, whose `typeof` is 'object'.
      var nestedClass := className + Naming.PascalCase(key);
      assert className <= nestedClass;
      Inference(ClassRef(nestedClass), Some(Nested(nestedClass, value)))
  }

  /** The inferred type per JSON kind: strings, numbers and booleans map to
      their Dart types, `null` to `dynamic`, an object to a class named after
      the parent and the key, and an array by its first element, with an
      empty array, booleans and `null` giving `List<dynamic>`. */
  lemma InferRules(className: string, key: string, value: Json)
    ensures var t := Infer(className, key, value).typ;
      && (value.JStr? ==> t == Prim(StringType))
      && (value.JNum? ==> t == Prim(NumType))
      && (value.JBool? ==> t == Prim(BoolType))
      && (value.JNull? ==> t == Prim(DynamicType))
      && (value.JObj? ==> t == ClassRef(className + Naming.PascalCase(key)))
      && (value.JArr? && |value.items| > 0 && IsComposite(value.items[0]) ==>
            t == ListOf(ClassRef(className + Naming.PascalCase(key) + "Item")))
      && (value.JArr? && |value.items| > 0 && value.items[0].JStr? ==> t == ListOf(Prim(StringType)))
      && (value.JArr? && |value.items| > 0 && value.items[0].JNum? ==> t == ListOf(Prim(NumType)))
      && (value.JArr? && (|value.items| == 0 || value.items[0].JBool? || value.items[0].JNull?) ==>
            t == ListOf(Prim(DynamicType)))
  {
  }

  /** The field generated for one entry. */
  function FieldOf(className: string, entry: (string, Json)): Field
  {
    Field(entry.0, Naming.ToCamelCase(entry.0), Infer(className, entry.0, entry.1).typ)
  }

  /** The class generated for a list of entries, one field per entry. */
  function BuildClass(className: string, entries: seq<(string, Json)>): ClassBlock
  {
    ClassBlock(className, seq(|entries|, i requires 0 <= i < |entries| => FieldOf(className, entries[i])))
  }

  // ---------------------------------------------------------------- roles

  /** `className.toLowerCase().includes('request')`. */
  predicate IsRequestName(className: string)
  {
    Contains(Lower(className), "request")
  }

  /** `className.toLowerCase().includes('response')`. */
  predicate IsResponseName(className: string)
  {
    Contains(Lower(className), "response")
  }

  datatype Method = FromJson | ToJson

  /** The serialisation methods a class gets, in emission order. */
  function Methods(className: string): (r: seq<Method>)
    ensures FromJson in r <==> IsResponseName(className) || !IsRequestName(className)
    ensures ToJson in r <==> IsRequestName(className) || !IsResponseName(className)
    ensures r == [FromJson] || r == [ToJson] || r == [FromJson, ToJson]
  {
    var isRequest := IsRequestName(className);
    var isResponse := IsResponseName(className);
    (if isResponse || (!isRequest && !isResponse) then [FromJson] else [])
    + (if isRequest || (!isRequest && !isResponse) then [ToJson] else [])
  }

  /** A class whose name extends another keeps every role word of the
      shorter name, so it keeps the methods those words ask for. */
  lemma RoleInherited(parent: string, child: string)
    requires parent <= child
    ensures IsRequestName(parent) ==> IsRequestName(child) && ToJson in Methods(child)
    ensures IsResponseName(parent) ==> IsResponseName(child) && FromJson in Methods(child)
  {
    var suffix := child[|parent|..];
    assert child == parent + suffix;
    LowerAppend(parent, suffix);
    if IsRequestName(parent) {
      ContainsExtend(Lower(parent), "request", Lower(suffix));
    }
    if IsResponseName(parent) {
      ContainsExtend(Lower(parent), "response", Lower(suffix));
    }
  }
}
