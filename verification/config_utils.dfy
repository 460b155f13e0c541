/** The pure helpers of the extension's configuration: the snake-case
    conversion used for folder and file names, the path of a generated model
    file, and the flattening of the model options into a feature set. */
module ConfigUtils {
  import opened Text
  import Naming
  import Schema

  // ------------------------------------------------------------ snake case

  /** What `convertToSnakeCase` puts in place of the character `c` found at
      offset `index`: a capital is lower-cased, and preceded by `_` unless it
      is the very first character; anything else is kept. */
  function SnakePiece(c: char, index: nat): string
  {
    if IsUpper(c) then (if index == 0 then [LowerChar(c)] else ['_', LowerChar(c)]) else [c]
  }

  /** The number of capitals in `s`. */
  function CountUpper(s: string): nat
    decreases |s|
  {
    if |s| == 0 then 0 else (if IsUpper(s[0]) then 1 else 0) + CountUpper(s[1..])
  }

  /** The conversion of the characters after the first one, whose offsets are
      all positive. */
  function SnakeTail(s: string): (r: string)
    ensures NoUpper(r)
    ensures |r| == |s| + CountUpper(s)
    decreases |s|
  {
    if |s| == 0 then "" else SnakePiece(s[0], 1) + SnakeTail(s[1..])
  }

  /** `convertToSnakeCase`: `replace(/([A-Z])/g, ...)` with the offset rule of
      `SnakePiece`. */
  function ConvertToSnakeCase(name: string): (r: string)
    ensures NoUpper(r)
    ensures |r| == |name| + (if |name| == 0 then 0 else CountUpper(name[1..]))
    ensures |name| > 0 ==> r[0] == LowerChar(name[0])
  {
    if |name| == 0 then "" else SnakePiece(name[0], 0) + SnakeTail(name[1..])
  }

  /** Where each character of `s` lands in `SnakeTail(s)`: at its own offset
      plus the number of capitals before it, a capital as `_` followed by its
      lower-case letter and any other character as itself. */
  lemma {:induction false} SnakeTailAt(s: string, k: nat)
    requires k < |s|
    ensures var r := SnakeTail(s);
      var o := k + CountUpper(s[..k]);
      if IsUpper(s[k]) then o + 1 < |r| && r[o] == '_' && r[o + 1] == LowerChar(s[k])
      else o < |r| && r[o] == s[k]
    decreases |s|
  {
    var piece := SnakePiece(s[0], 1);
    assert SnakeTail(s) == piece + SnakeTail(s[1..]);
    if k == 0 {
      assert s[..0] == [];
    } else {
      SnakeTailAt(s[1..], k - 1);
      CountUpperFront(s, k);
    }
  }

  /** Counting the capitals of a non-empty prefix starts with its first
      character. */
  lemma CountUpperFront(s: string, k: nat)
    requires 0 < k <= |s|
    ensures CountUpper(s[..k]) == (if IsUpper(s[0]) then 1 else 0) + CountUpper(s[1..][..k - 1])
  {
    assert s[..k][1..] == s[1..][..k - 1];
  }

  /** The capital rule of `convertToSnakeCase` position by position: the
      character at offset `k > 0` moves right by the number of capitals
      between the first character and it, and a capital there becomes `_`
      followed by its lower-case letter. */
  lemma SnakeCaseAt(name: string, k: nat)
    requires 0 < k < |name|
    ensures var r := ConvertToSnakeCase(name);
      var o := k + CountUpper(name[1..k]);
      if IsUpper(name[k]) then o + 1 < |r| && r[o] == '_' && r[o + 1] == LowerChar(name[k])
      else o < |r| && r[o] == name[k]
  {
    SnakeTailAt(name[1..], k - 1);
    assert name[1..][..k - 1] == name[1..k];
    assert ConvertToSnakeCase(name) == SnakePiece(name[0], 0) + SnakeTail(name[1..]);
  }

  lemma {:induction false} SnakeTailOfLower(s: string)
    requires NoUpper(s)
    ensures SnakeTail(s) == s
    decreases |s|
  {
    if |s| > 0 {
      SnakeTailOfLower(s[1..]);
      assert s == [s[0]] + s[1..];
    }
  }

  /** A name without capitals is left unchanged. */
  lemma SnakeCaseOfLower(name: string)
    requires NoUpper(name)
    ensures ConvertToSnakeCase(name) == name
  {
    if |name| > 0 {
      SnakeTailOfLower(name[1..]);
      assert name == [name[0]] + name[1..];
    }
  }

  /** `convertToSnakeCase` is idempotent. */
  lemma SnakeCaseIdempotent(name: string)
    ensures ConvertToSnakeCase(ConvertToSnakeCase(name)) == ConvertToSnakeCase(name)
  {
    SnakeCaseOfLower(ConvertToSnakeCase(name));
  }

  /** `pascalCase` reads the converted tail back: every `_x` it produced
      becomes `X` again. */
  lemma {:induction false} JoinPascalOfSnakeTail(s: string)
    requires Naming.NoPascalSeparator(s)
    ensures Naming.JoinPascalWords(SnakeTail(s), false) == s
    decreases |s|
  {
    if |s| > 0 {
      var c := s[0];
      var rest := SnakeTail(s[1..]);
      JoinPascalOfSnakeTail(s[1..]);
      if IsUpper(c) {
        var lowered := LowerChar(c);
        assert SnakeTail(s) == ['_'] + ([lowered] + rest);
        Naming.JoinPascalSkip([lowered] + rest, false);
        Naming.JoinPascalStep(lowered, rest, true);
        CaseMapsAgree(c);
      } else {
        assert SnakeTail(s) == [c] + rest;
        Naming.JoinPascalStep(c, rest, false);
      }
      assert s == [c] + s[1..];
    }
  }

  /** A PascalCase base name survives the trip to snake case: `pascalCase`
      of the folder name gives the base name back, provided the name has no
      delimiters and does not start with a lower-case letter. */
  lemma SnakeCaseRoundTrip(name: string)
    requires Naming.NoPascalSeparator(name)
    requires |name| > 0 ==> !IsLower(name[0])
    ensures Naming.PascalCase(ConvertToSnakeCase(name)) == name
  {
    if |name| > 0 {
      var c := name[0];
      var snake := ConvertToSnakeCase(name);
      var tail := SnakeTail(name[1..]);
      assert Naming.NoPascalSeparator(name[1..]) by {
        forall k | 0 <= k < |name[1..]| ensures !Naming.IsPascalSeparator(name[1..][k]) {
          assert name[1..][k] == name[k + 1];
        }
      }
      JoinPascalOfSnakeTail(name[1..]);
      CaseMapsAgree(c);
      assert snake == [LowerChar(c)] + tail;
      assert !Naming.IsPascalSeparator(LowerChar(c)) by {
        assert !Naming.IsPascalSeparator(name[0]);
      }
      assert Naming.JoinPascalWords(snake, false) == [LowerChar(c)] + name[1..] by {
        assert snake[1..] == tail;
      }
      assert UpperChar(LowerChar(c)) == c;
      assert name == [c] + name[1..];
    }
  }

  // --------------------------------------------------------------- file paths

  /** The null-safety choice of the options. */
  datatype NullSafety = Nullable | NonNullable | AutoNullSafety

  function NullSafetyName(n: NullSafety): string
  {
    match n
    case Nullable => "nullable"
    case NonNullable => "non-nullable"
    case AutoNullSafety => "auto"
  }

  /** The field-name style of the options. */
  datatype FieldCase = CamelCase | SnakeCase | Preserve

  function FieldCaseName(f: FieldCase): string
  {
    match f
    case CamelCase => "camelCase"
    case SnakeCase => "snake_case"
    case Preserve => "preserve"
  }

  datatype ModelGenerationOptions = ModelGenerationOptions(
    nullSafety: NullSafety,
    generateJsonAnnotation: bool,
    generateCopyWith: bool,
    generateEquatable: bool,
    generateToString: bool,
    useFreezed: bool,
    fieldCase: FieldCase,
    addPartStatement: bool)

  datatype GenerationConfig = GenerationConfig(
    baseFolder: string,
    generateSubfolders: bool,
    modelOptions: ModelGenerationOptions)

  /** The file name of a model: the snake-cased base name, `_`, the
      lower-cased model type and `.dart`. */
  function ModelFileName(classNameBase: string, modelType: string): (r: string)
    ensures ConvertToSnakeCase(classNameBase) <= r
    ensures r[|ConvertToSnakeCase(classNameBase)|..] == "_" + Lower(modelType) + ".dart"
    ensures NoUpper(r)
    ensures |r| >= 6 && r[|r| - 5..] == ".dart"
  {
    var folderName := ConvertToSnakeCase(classNameBase);
    var r := folderName + "_" + Lower(modelType) + ".dart";
    assert r == (folderName + "_" + Lower(modelType)) + ".dart";
    r
  }

  /** The part of the path after the base folder. */
  function PathBelowBase(generateSubfolders: bool, classNameBase: string, modelType: string): (r: string)
    ensures |r| >= 7 && r[0] == '/' && r[|r| - 5..] == ".dart"
    ensures NoUpper(r)
  {
    var fileName := ModelFileName(classNameBase, modelType);
    var r := if generateSubfolders then "/" + ConvertToSnakeCase(classNameBase) + "/" + fileName else "/" + fileName;
    assert r[|r| - |fileName|..] == fileName;
    assert r[|r| - 5..] == fileName[|fileName| - 5..];
    r
  }

  /** `buildFilePath`: the model file goes into its own snake-cased folder
      under the base folder, or directly into the base folder. */
  function BuildFilePath(config: GenerationConfig, classNameBase: string, modelType: string): (r: string)
    ensures (config.baseFolder + "/") <= r
    ensures |r| >= |config.baseFolder| + 7 && r[|r| - 5..] == ".dart"
    ensures NoUpper(r[|config.baseFolder|..])
  {
    var below := PathBelowBase(config.generateSubfolders, classNameBase, modelType);
    var r := config.baseFolder + below;
    assert r[|config.baseFolder|..] == below;
    assert r[|r| - 5..] == below[|below| - 5..];
    r
  }

  /** The model type selects the file: for one base name, two model types
      give the same file name exactly when they agree once lower-cased. */
  lemma ModelFileNameSelectsType(classNameBase: string, t1: string, t2: string)
    ensures ModelFileName(classNameBase, t1) == ModelFileName(classNameBase, t2) <==> Lower(t1) == Lower(t2)
  {
    var a := "_" + Lower(t1) + ".dart";
    var b := "_" + Lower(t2) + ".dart";
    if ModelFileName(classNameBase, t1) == ModelFileName(classNameBase, t2) {
      assert a == b;
      assert Lower(t1) == a[1..|a| - 5];
      assert Lower(t2) == b[1..|b| - 5];
    }
  }

  /** The part of the path before the file name. */
  function PathLead(config: GenerationConfig, classNameBase: string): string
  {
    config.baseFolder + (if config.generateSubfolders then "/" + ConvertToSnakeCase(classNameBase) + "/" else "/")
  }

  /** Every path is its lead followed by the model's file name. */
  lemma BuildFilePathSplits(config: GenerationConfig, classNameBase: string, modelType: string)
    ensures BuildFilePath(config, classNameBase, modelType) == PathLead(config, classNameBase) + ModelFileName(classNameBase, modelType)
  {
    var fileName := ModelFileName(classNameBase, modelType);
    if config.generateSubfolders {
      assert PathBelowBase(true, classNameBase, modelType) == ("/" + ConvertToSnakeCase(classNameBase) + "/") + fileName;
    }
  }

  /** The same holds for the whole path in either layout: for one
      configuration and base name, `buildFilePath` gives two model types the
      same path exactly when they agree once lower-cased. */
  lemma BuildFilePathSelectsType(config: GenerationConfig, classNameBase: string, t1: string, t2: string)
    ensures BuildFilePath(config, classNameBase, t1) == BuildFilePath(config, classNameBase, t2) <==> Lower(t1) == Lower(t2)
  {
    ModelFileNameSelectsType(classNameBase, t1, t2);
    BuildFilePathSplits(config, classNameBase, t1);
    BuildFilePathSplits(config, classNameBase, t2);
    var lead := PathLead(config, classNameBase);
    var p1 := BuildFilePath(config, classNameBase, t1);
    var p2 := BuildFilePath(config, classNameBase, t2);
    if p1 == p2 {
      assert ModelFileName(classNameBase, t1) == p1[|lead|..];
      assert ModelFileName(classNameBase, t2) == p2[|lead|..];
    }
  }

  /** The two layouts differ only by the model's folder: the subfolder path
      is the flat path with `/<folder>` inserted after the base folder, and
      both end in the same file name. */
  lemma SubfolderAddsFolder(config: GenerationConfig, classNameBase: string, modelType: string)
    ensures var nested := BuildFilePath(config.(generateSubfolders := true), classNameBase, modelType);
      var flat := BuildFilePath(config.(generateSubfolders := false), classNameBase, modelType);
      && |flat| >= |config.baseFolder|
      && nested == config.baseFolder + "/" + ConvertToSnakeCase(classNameBase) + flat[|config.baseFolder|..]
      && flat == config.baseFolder + "/" + ModelFileName(classNameBase, modelType)
  {
    var folderName := ConvertToSnakeCase(classNameBase);
    var fileName := ModelFileName(classNameBase, modelType);
    var flat := BuildFilePath(config.(generateSubfolders := false), classNameBase, modelType);
    var nested := BuildFilePath(config.(generateSubfolders := true), classNameBase, modelType);
    assert flat == config.baseFolder + ("/" + fileName);
    assert flat[|config.baseFolder|..] == "/" + fileName;
    assert nested == config.baseFolder + ("/" + folderName + "/" + fileName);
  }

  // ----------------------------------------------------------- feature set

  /** An option's value as `Object.entries` sees it. */
  datatype OptionValue = BoolOption(b: bool) | StringOption(s: string)

  /** The feature an option contributes: a set boolean gives its bare key, a
      string gives `key:value`, an unset boolean gives nothing. */
  function FeatureOf(key: string, value: OptionValue): Schema.Option<string>
  {
    match value
    case BoolOption(b) => if b then Schema.Some(key) else Schema.None
    case StringOption(v) => Schema.Some(key + ":" + v)
  }

  /** Option keys as an object literal has them: pairwise different, and
      without the `:` that separates a string option's key from its value. */
  predicate WellKeyed(entries: seq<(string, OptionValue)>)
  {
    && (forall k, j :: 0 <= k < j < |entries| ==> entries[k].0 != entries[j].0)
    && (forall k :: 0 <= k < |entries| ==> ':' !in entries[k].0)
  }

  /** The loop of `modelOptionsToSet` over any list of entries: the set holds
      exactly the entries' features, and for well-keyed entries a boolean
      option's bare key is present exactly when the option is set. */
  method FeatureSet(entries: seq<(string, OptionValue)>) returns (features: set<string>)
    ensures forall x :: x in features <==> exists k :: 0 <= k < |entries| && FeatureOf(entries[k].0, entries[k].1) == Schema.Some(x)
    ensures forall k :: 0 <= k < |entries| && entries[k].1.StringOption? ==>
      entries[k].0 + ":" + entries[k].1.s in features
    ensures WellKeyed(entries) ==> forall k :: 0 <= k < |entries| && entries[k].1.BoolOption? ==>
      (entries[k].0 in features <==> entries[k].1.b)
    ensures |features| <= |entries|
  {
    features := {};
    var i := 0;
    while i < |entries|
      invariant i <= |entries|
      invariant forall x :: x in features <==> exists k :: 0 <= k < i && FeatureOf(entries[k].0, entries[k].1) == Schema.Some(x)
      invariant |features| <= i
    {
      var (key, value) := entries[i];
      match value {
        case BoolOption(b) =>
          if b {
            features := features + {key};
          }
        case StringOption(v) =>
          features := features + {key + ":" + v};
      }
      i := i + 1;
    }
    forall k | 0 <= k < |entries| && entries[k].1.StringOption?
      ensures entries[k].0 + ":" + entries[k].1.s in features
    {
      assert FeatureOf(entries[k].0, entries[k].1) == Schema.Some(entries[k].0 + ":" + entries[k].1.s);
    }
    if WellKeyed(entries) {
      forall k | 0 <= k < |entries| && entries[k].1.BoolOption?
        ensures entries[k].0 in features <==> entries[k].1.b
      {
        var key := entries[k].0;
        if entries[k].1.b {
          assert FeatureOf(key, entries[k].1) == Schema.Some(key);
        } else if key in features {
          var j :| 0 <= j < |entries| && FeatureOf(entries[j].0, entries[j].1) == Schema.Some(key);
          BareKeyOnlyFromItsOption(entries, k, j);
          assert false;
        }
      }
    }
  }

  /** Among well-keyed entries, the bare key of an option can only be the
      feature of that option itself, set to true. */
  lemma BareKeyOnlyFromItsOption(entries: seq<(string, OptionValue)>, k: nat, j: nat)
    requires WellKeyed(entries) && k < |entries| && j < |entries|
    requires FeatureOf(entries[j].0, entries[j].1) == Schema.Some(entries[k].0)
    ensures j == k && entries[k].1 == BoolOption(true)
  {
    var (keyJ, valueJ) := entries[j];
    match valueJ {
      case StringOption(v) =>
        ColonAfterKey(keyJ, v);
        assert false;
      case BoolOption(_) =>
    }
  }

  lemma ColonAfterKey(key: string, value: string)
    ensures (key + ":" + value)[|key|] == ':'
  {
  }

  /** `Object.entries` of the options, in declaration order. */
  function OptionEntries(o: ModelGenerationOptions): (r: seq<(string, OptionValue)>)
    ensures WellKeyed(r)
  {
    [ ("nullSafety", StringOption(NullSafetyName(o.nullSafety))),
      ("generateJsonAnnotation", BoolOption(o.generateJsonAnnotation)),
      ("generateCopyWith", BoolOption(o.generateCopyWith)),
      ("generateEquatable", BoolOption(o.generateEquatable)),
      ("generateToString", BoolOption(o.generateToString)),
      ("useFreezed", BoolOption(o.useFreezed)),
      ("fieldCase", StringOption(FieldCaseName(o.fieldCase))),
      ("addPartStatement", BoolOption(o.addPartStatement)) ]
  }

  /** `modelOptionsToSet`: both string options appear as `key:value`, each
      boolean option's key appears exactly when the option is on, and
      nothing else is in the set. */
  method ModelOptionsToSet(o: ModelGenerationOptions) returns (features: set<string>)
    ensures forall x :: x in features <==>
      exists k :: 0 <= k < |OptionEntries(o)| && FeatureOf(OptionEntries(o)[k].0, OptionEntries(o)[k].1) == Schema.Some(x)
    ensures "nullSafety:" + NullSafetyName(o.nullSafety) in features
    ensures "fieldCase:" + FieldCaseName(o.fieldCase) in features
    ensures "generateJsonAnnotation" in features <==> o.generateJsonAnnotation
    ensures "generateCopyWith" in features <==> o.generateCopyWith
    ensures "generateEquatable" in features <==> o.generateEquatable
    ensures "generateToString" in features <==> o.generateToString
    ensures "useFreezed" in features <==> o.useFreezed
    ensures "addPartStatement" in features <==> o.addPartStatement
    ensures |features| <= 8
  {
    var entries := OptionEntries(o);
    features := FeatureSet(entries);
    assert entries[0].0 + ":" + entries[0].1.s == "nullSafety:" + NullSafetyName(o.nullSafety);
    assert entries[6].0 + ":" + entries[6].1.s == "fieldCase:" + FieldCaseName(o.fieldCase);
    assert entries[1].1.BoolOption? && entries[2].1.BoolOption? && entries[3].1.BoolOption?;
    assert entries[4].1.BoolOption? && entries[5].1.BoolOption? && entries[7].1.BoolOption?;
  }
}
