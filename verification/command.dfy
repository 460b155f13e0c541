/** The pure part of the `generateModel` command: the final class name, the
    starting name set it hands to the generator, and what the generator then
    returns. Prompts, JSON parsing, configuration reads and file writes stay
    outside the model. */
module Command {
  import opened Text
  import opened JsonValue
  import opened Schema
  import Generator

  /** The model type picked in the quick pick. */
  datatype ModelType = Request | Response

  function ModelTypeName(t: ModelType): string
  {
    match t
    case Request => "Request"
    case Response => "Response"
  }

  /** The class name the command generates: the base name followed by the
      model type. */
  function FinalClassName(classNameBase: string, t: ModelType): (r: string)
    ensures classNameBase <= r
    ensures r[|classNameBase|..] == ModelTypeName(t)
  {
    classNameBase + ModelTypeName(t)
  }

  /** The keys of the command's option literal, which it passes as the
      generator's starting set of generated names. */
  const OptionKeys: set<string> := {
    "nullSafety", "generateJsonAnnotation", "generateFromJson", "generateToJson",
    "generateCopyWith", "generateEquatable", "generateToString", "useFreezed",
    "fieldCase", "addPartStatement" }

  /** The generator call of the command. */
  function GenerateForCommand(json: Json, classNameBase: string, t: ModelType): Generator.Outcome
  {
    Generator.GenerateDartModel(json, FinalClassName(classNameBase, t), OptionKeys)
  }

  /** Every character of a prefix occurs in each of its extensions. */
  lemma ExtensionKeepsLetter(prefix: string, s: string, c: char)
    requires prefix <= s && c in prefix
    ensures c in s
  {
    var k :| 0 <= k < |prefix| && prefix[k] == c;
    assert s[k] == c;
  }

  /** None of the option keys extends a class name the command can form: the
      names end in `Request` or `Response` and no key has a capital `R`. */
  lemma OptionKeysUnrelated(classNameBase: string, t: ModelType)
    ensures forall x :: x in OptionKeys ==> !(FinalClassName(classNameBase, t) <= x)
  {
    var name := FinalClassName(classNameBase, t);
    assert name[|classNameBase|] == ModelTypeName(t)[0] == 'R';
    forall x | x in OptionKeys
      ensures !(name <= x)
    {
      assert 'R' !in x;
      if name <= x {
        ExtensionKeepsLetter(name, x, 'R');
      }
    }
  }

  /** Seeding the generator with the option keys changes nothing but the
      returned name set: the command's text is the text of a run from an
      empty set, and its name set is that run's set plus the keys. */
  lemma CommandSeedIsInert(json: Json, classNameBase: string, t: ModelType)
    ensures var name := FinalClassName(classNameBase, t);
      var seeded := GenerateForCommand(json, classNameBase, t);
      var unseeded := Generator.GenerateDartModel(json, name, {});
      && (seeded.TypeError? <==> json.JNull?)
      && (unseeded.TypeError? <==> json.JNull?)
      && (seeded.Ok? ==> seeded.value == Generator.Generated(unseeded.value.text, unseeded.value.names + OptionKeys))
      && (seeded.TypeError? ==> seeded.names == unseeded.names + OptionKeys)
  {
    var name := FinalClassName(classNameBase, t);
    OptionKeysUnrelated(classNameBase, t);
    assert name !in OptionKeys by {
      assert name <= name;
    }
    if !json.JNull? {
      Generator.PlanIgnoresUnrelated(json, name, {}, OptionKeys);
      assert {} + OptionKeys == OptionKeys;
      Generator.GenerateDartModelRendersPlan(json, name, {});
      Generator.GenerateDartModelRendersPlan(json, name, OptionKeys);
    }
  }

  /** The command's class name contains the role word of its model type. */
  lemma FinalClassNameHasRole(classNameBase: string, t: ModelType)
    ensures t == Request ==> IsRequestName(FinalClassName(classNameBase, t))
    ensures t == Response ==> IsResponseName(FinalClassName(classNameBase, t))
  {
    var suffix := ModelTypeName(t);
    LowerAppend(classNameBase, suffix);
    ContainsInfix(Lower(classNameBase), Lower(suffix), "");
    assert Lower(classNameBase) + Lower(suffix) + "" == Lower(classNameBase + suffix);
    assert t == Request ==> Lower(suffix) == "request";
    assert t == Response ==> Lower(suffix) == "response";
  }

  /** Every class of a request model gets `toJson`, every class of a response
      model gets `fromJson`. (A `null` value has no classes: the call throws,
      as `CommandSeedIsInert` states.) */
  lemma CommandClassesServeRole(json: Json, classNameBase: string, t: ModelType)
    requires !json.JNull?
    ensures var name := FinalClassName(classNameBase, t);
      forall s :: s in Generator.PlanOf(json, name, OptionKeys).segments && s.Emitted? ==>
        && (t == Request ==> ToJson in Methods(s.block.name))
        && (t == Response ==> FromJson in Methods(s.block.name))
  {
    FinalClassNameHasRole(classNameBase, t);
    Generator.NestedClassesKeepRole(json, FinalClassName(classNameBase, t), OptionKeys);
  }
}
