# neuma-api-dart generator core in Dafny

This project models the part of the neuma-api-dart VS Code extension that turns a parsed JSON value into Dart model classes. It covers:

- `generateDartModel`, the recursive generator in `src/utils/dartGenUtils.ts`. It walks an object's entries in order and gives every entry a camel-cased field and a type taken from the JSON kind. For a nested object, or an array whose first element is an object or array, it recurses into a class named after the parent and the `pascalCase`d key. A set of already generated names keeps any class from being emitted twice. A class gets `fromJson` and/or `toJson` depending only on whether its lower-cased name contains `request` or `response`.
- The older `generateDartModel` of `src/utils/jsonToDart.ts`. It has the same recursion and always emits `fromJson`, never `toJson`.
- The identifier helpers `capitalize`, `pascalCase` and `toCamelCase`.
- The configuration helpers `convertToSnakeCase`, `buildFilePath` and `modelOptionsToSet` of `src/utils/configUtils.ts`.
- The pure part of the `generateModel` command: the final class name, and the set of option keys it passes to the generator as the starting name set.

Modules:

- `Text` (`text.dfy`): ASCII case maps; JavaScript's `\s` and line terminators; `includes`, `join` and `trim`.
- `JsonValue` (`json_value.dfy`): the JSON datatype, `typeof`, and `Object.entries`. Arrays are keyed by their indices, strings by the indices of their characters (code points; see "Left out"), booleans and numbers have no entries, and `null` has none because the call throws.
- `Naming` (`naming.dfy`): `capitalize`, `pascalCase` and `toCamelCase`. Each global regular-expression replacement is modelled as a left-to-right scan carrying one bit of state.
- `Schema` (`schema.dfy`): type inference per entry, the nested class an entry asks for, fields and class blocks, and the role tests that choose the methods.
- `Emit` (`emit.dfy`): the Dart text of one class under each generator's template. `ClassText` renders a block with an explicit list of methods and is the reference both templates are compared with.
- `Generator` (`generator.dfy`): the recursion, parameterised by the class template.
  - The name set that the source mutates in place is threaded explicitly: every call takes the set it starts from and returns the set it leaves behind. When a top-level call throws, the name has already been added, so the `TypeError` outcome carries the set as well.
  - `PlanOf` is a structural twin of the recursion. It lists the emitted class blocks in output order, with `Elided` wherever a name had already been generated.
  - The text generator is proved to render exactly that plan. All output properties are then stated on the plan.
- `ConfigUtils` (`config_utils.dfy`): snake case, file paths and the feature set of the options.
- `Command` (`command.dfy`): the final class name and the seeded generator call of the command.

## Model

| member | source | states |
|---|---|---|
| Naming.Capitalize | src/utils/dartGenUtils.ts:1-3 | the result has the input's length and the input's characters after the first, its first character is not a lower-case letter, and it equals the input up to case |
| Naming.JoinPascalWords | src/utils/dartGenUtils.ts:7 | after the delimiter-run replacement no `_`, `-` or white space is left (what happens around each run is stated by the three lemmas below) |
| Naming.JoinPascalAfterRun | src/utils/dartGenUtils.ts:7 | a maximal run of `_`, `-` or white space followed by a character is replaced by that character upper-cased, whatever came before the run |
| Naming.JoinPascalOfTrailingRun | src/utils/dartGenUtils.ts:7 | a run of delimiters at the end of the input, where `(.)?` matches nothing, is replaced by `''` |
| Naming.JoinPascalOfPlainPrefix | src/utils/dartGenUtils.ts:7 | a prefix without delimiters passes through unchanged, and the rest is replaced independently |
| Naming.JoinOfSpacedWords | src/utils/dartGenUtils.ts:7 | the delimiter-run replacement turns `user id` into `userId` |
| Naming.PascalOfSpacedWords | src/utils/dartGenUtils.ts:5-9 | `pascalCase('user id')` is `UserId` |
| Naming.PascalCase | src/utils/dartGenUtils.ts:5-9 | the output has no `_`, `-` or white space, does not start with a lower-case letter, and is no longer than the input |
| Naming.PascalOfUndelimited | src/utils/dartGenUtils.ts:5-9 | on a name without delimiters `pascalCase` is `capitalize`: only the first character may change, so acronym runs survive |
| Naming.PascalCaseIdempotent | src/utils/dartGenUtils.ts:5-9 | applying `pascalCase` twice is the same as applying it once |
| Naming.PascalCaseKeepsLetters | src/utils/dartGenUtils.ts:5-9 | up to letter case, the output is the input with every `_`, `-` and white-space character deleted |
| Naming.JoinCamelWords | src/utils/dartGenUtils.ts:14 | after the first replacement no `_` or `-` is left and the text is no longer (what happens around each run is stated by the lemmas below) |
| Naming.JoinCamelAfterRun | src/utils/dartGenUtils.ts:13-14 | a maximal run of `_` and `-` followed by a character is replaced by that character upper-cased, or kept as it is when it is a line terminator, which `.` does not match |
| Naming.JoinCamelOfTrailingRun | src/utils/dartGenUtils.ts:14 | a run of `_` and `-` at the end of the input is replaced by `''` |
| Naming.FoldCapitalRunsSpec | src/utils/dartGenUtils.ts:16 | position by position, a capital that follows a capital is lower-cased and every other character is kept |
| Naming.FoldCapitalRunsNormal | src/utils/dartGenUtils.ts:16 | on text without `_`/`-`, the capital-run replacement leaves no two adjacent capitals and adds no delimiter |
| Naming.ToCamelCase | src/utils/dartGenUtils.ts:11-19 | the field name has no `_` or `-`, no two adjacent capitals and no leading capital, and is no longer than the key |
| Naming.JoinCamelOfPlainPrefix | src/utils/dartGenUtils.ts:14 | a prefix without `_` or `-` passes through the first replacement unchanged, and the rest is replaced independently |
| Naming.FoldOfLowerPrefix | src/utils/dartGenUtils.ts:16 | a prefix without capitals passes through the capital-run replacement unchanged, and the rest is replaced as if it stood alone |
| Naming.FoldOfUrl | src/utils/dartGenUtils.ts:15-16 | the capital-run replacement turns `URL` into `Url` |
| Naming.CamelOfKebabKey | src/utils/dartGenUtils.ts:11-19 | `toCamelCase('user-id')` is `userId`: kebab case is handled like snake case |
| Naming.CamelOfSnakeKey | src/utils/dartGenUtils.ts:11-19 | `toCamelCase('user_id')` is `userId` |
| Naming.CamelOfCapitalRun | src/utils/dartGenUtils.ts:11-19 | `toCamelCase('URL')` is `url` |
| Naming.CamelOfInnerCapitalRun | src/utils/dartGenUtils.ts:11-19 | `toCamelCase('userURL')` is `userUrl` |
| Naming.CamelNormalIsFixed | src/utils/dartGenUtils.ts:11-19 | a name already in that normal form is returned unchanged |
| Naming.ToCamelCaseIdempotent | src/utils/dartGenUtils.ts:11-19 | applying `toCamelCase` twice is the same as applying it once |
| Naming.ToCamelCaseKeepsLetters | src/utils/dartGenUtils.ts:11-19 | up to letter case, the output is the key with every `_` and `-` deleted |
| Schema.Infer | src/utils/dartGenUtils.ts:41-67 | an entry asks for a nested class exactly when its type names one; that name extends the parent's name; the class is built from the object itself or from the array's first element |
| Schema.InferRules | src/utils/dartGenUtils.ts:41-59 | string → `String`, number → `num`, boolean → `bool`, null → `dynamic`, object → `parent + pascalCase(key)`, array of objects → `List<parent + pascalCase(key) + Item>`, other arrays → `List<String>`/`List<num>` by the first element, otherwise `List<dynamic>`; the older generator, `src/utils/jsonToDart.ts:35-48`, uses the same rules |
| Schema.Methods | src/utils/dartGenUtils.ts:75-97 | `fromJson` is emitted iff the lower-cased name contains `response` or contains neither word; `toJson` iff it contains `request` or neither; both in that order |
| Schema.RoleInherited | src/utils/dartGenUtils.ts:32-33 | a name extending a name that contains `request` (`response`) contains it too, so it also gets `toJson` (`fromJson`) |
| Emit.ParseCodeReadsKey | src/utils/dartGenUtils.ts:38-64 | every decode expression reads the original key, `json['key']` |
| Emit.FromJsonLineReadsKey | src/utils/dartGenUtils.ts:71 | a decode line assigns the camel-cased variable from a read of the original key |
| Emit.ToJsonLineWritesKey | src/utils/dartGenUtils.ts:39-72 | an encode line writes the camel-cased variable under the original key, `'key': var` |
| Emit.TrimmedClass | src/utils/dartGenUtils.ts:99-107 | trimming the template removes only its outer line breaks |
| Emit.RoleMethodsFollowRole | src/utils/dartGenUtils.ts:75-97 | the two `if`s append exactly the methods `Methods` lists, in that order |
| Emit.RenderClassFollowsRole | src/utils/dartGenUtils.ts:75-107 | a class text is its head, then exactly the methods its name selects, then the closing brace |
| Emit.RenderLegacyIsFromJsonOnly | src/utils/jsonToDart.ts:61-75 | the older template is the same head with `fromJson` alone, whatever the name |
| Emit.LegacyMatchesResponseClass | src/utils/jsonToDart.ts:61-75 | for a name containing `response` but not `request`, both templates give the same class text character for character |
| Generator.Gen | src/utils/dartGenUtils.ts:21-23 | a name already in the set yields `''` and leaves the set unchanged; otherwise the returned set contains the name; the set only grows |
| Generator.Generate | src/utils/dartGenUtils.ts:21-35 | the call throws exactly when the name is new and the value is `null`, and then the set it leaves behind is the starting set plus the name; otherwise it behaves as `Gen` |
| Generator.GenerateDartModel | src/utils/dartGenUtils.ts:21-35 | the current generator: throws exactly on a new name with a `null` value, leaving the starting set plus the name behind; returns `''` and the same set for a known name; otherwise adds the name and keeps the starting set |
| Generator.LegacyGenerateDartModel | src/utils/jsonToDart.ts:21-30 | the older generator has the same deduplication rule and the same error case, which also leaves the name added to the set |
| Generator.PlanOf | src/utils/dartGenUtils.ts:21-66 | a known name gives a single empty segment; a new name gives the root class, built from the value's entries, as the first segment |
| Generator.PlanEmitsEachNameOnce | src/utils/dartGenUtils.ts:22-23 | every class name is emitted at most once, none from the starting set, and the final set is the starting set plus the emitted names |
| Generator.PlanExtendsName | src/utils/dartGenUtils.ts:51-62 | every emitted class is named by extending the call's class name |
| Generator.PlanIsClosed | src/utils/dartGenUtils.ts:49-66 | every class a field refers to is in the final name set: the output never names a class it neither emits nor had already generated |
| Generator.GenFollowsPlan | src/utils/dartGenUtils.ts:55-109 | the text is the plan's segments rendered in order and joined by blank lines, with an already generated class contributing an empty segment; the final set is the plan's |
| Generator.GenerateFollowsPlan | src/utils/dartGenUtils.ts:109 | a top-level call either throws or returns the plan's rendering |
| Generator.GenerateDartModelRendersPlan | src/utils/dartGenUtils.ts:75-109 | the current generator's output is every planned class with exactly the methods its own name selects, joined by blank lines |
| Generator.LegacyRendersPlan | src/utils/jsonToDart.ts:61-77 | the older generator's output is the same classes in the same order, each with `fromJson` and nothing else |
| Generator.RootClassLeads | src/utils/dartGenUtils.ts:35-73 | the output of both generators starts with the text of the root class built from the root value's entries (`BuildClass`, one field per entry in entry order): with the methods its name selects, or with `fromJson` alone |
| Generator.NestedClassesKeepRole | src/utils/dartGenUtils.ts:32-33 | below a request (response) root every emitted class also gets `toJson` (`fromJson`) |
| Generator.GeneratorsAgreeOnResponses | src/utils/jsonToDart.ts:61-77 | with a `response` root and no emitted `request` name, both generators return the same text and set |
| Generator.PlanIgnoresUnrelated | src/utils/dartGenUtils.ts:22 | starting names that do not extend the class name change nothing but the returned set, which merely carries them along |
| ConfigUtils.SnakeTail | src/utils/configUtils.ts:26-28 | the conversion of the characters after the first has no capital and is longer than its input by the number of capitals in it |
| ConfigUtils.SnakeTailAt | src/utils/configUtils.ts:26-28 | character `k` of the tail lands at `k` plus the number of capitals before it: a capital as `_` followed by its lower case, any other character as itself |
| ConfigUtils.SnakeCaseAt | src/utils/configUtils.ts:25-29 | for every position `k > 0`, the character moves right by the number of capitals between position 1 and `k`; a capital there becomes `_` followed by its lower case, anything else is copied |
| ConfigUtils.ConvertToSnakeCase | src/utils/configUtils.ts:25-29 | no capital is left; a leading capital is only lower-cased; the length is the input's plus the number of capitals after position 0 |
| ConfigUtils.SnakeCaseOfLower | src/utils/configUtils.ts:25-29 | a name without capitals is returned unchanged |
| ConfigUtils.SnakeCaseIdempotent | src/utils/configUtils.ts:25-29 | converting twice is the same as converting once |
| ConfigUtils.SnakeCaseRoundTrip | src/utils/configUtils.ts:25-29 | a PascalCase base name without delimiters is recovered by `pascalCase` from its snake-cased folder name |
| ConfigUtils.ModelFileName | src/utils/configUtils.ts:32-33 | the file name is the folder name followed by `_`, the lower-cased model type and `.dart`, and has no capital |
| ConfigUtils.ModelFileNameSelectsType | src/utils/configUtils.ts:32-33 | for one base name, two model types give the same file name exactly when they are equal once lower-cased |
| ConfigUtils.BuildFilePath | src/utils/configUtils.ts:31-38 | the path starts with the base folder and `/`, ends in `.dart`, and has no capital after the base folder |
| ConfigUtils.BuildFilePathSplits | src/utils/configUtils.ts:31-38 | every path is the base folder, `/`, the folder and `/` when subfolders are on, and then the model's file name |
| ConfigUtils.BuildFilePathSelectsType | src/utils/configUtils.ts:31-38 | for one configuration and base name, two model types give the same path exactly when they are equal once lower-cased |
| ConfigUtils.SubfolderAddsFolder | src/utils/configUtils.ts:35-37 | the flat path is `base/file`, and the subfolder path is the flat path with `/folder` inserted after the base folder |
| ConfigUtils.FeatureSet | src/utils/configUtils.ts:40-51 | the set holds exactly the entries' features: a true boolean's key, a string's `key:value`, nothing else; with distinct keys free of `:` a boolean's key is present iff the option is true; at most one feature per entry |
| ConfigUtils.OptionEntries | src/configs/types.ts:3-12 | the option keys are pairwise different and contain no `:` |
| ConfigUtils.ModelOptionsToSet | src/utils/configUtils.ts:40-51 | the set holds exactly the features of the eight option entries and nothing else: both string options appear as `key:value`, and every boolean option's key appears exactly when it is on; at most eight features |
| Command.FinalClassName | src/commands/generateModel.ts:34 | the class name is the base name followed by the model type's name, `Request` or `Response` |
| Command.FinalClassNameHasRole | src/commands/generateModel.ts:34 | a Request model's class name contains `request`, a Response model's contains `response` |
| Command.OptionKeysUnrelated | src/commands/generateModel.ts:56-67 | no option key extends a class name the command can form |
| Command.CommandSeedIsInert | src/commands/generateModel.ts:69 | seeding with the option keys leaves the generated text as from an empty set and only adds the keys to the returned set; it throws exactly on a `null` value, and then the error's set is the unseeded error's set plus the keys |
| Command.CommandClassesServeRole | src/commands/generateModel.ts:34-69 | every class of a Request model gets `toJson`, every class of a Response model gets `fromJson` |

## Left out

- VS Code interaction: prompts, quick picks, `JSON.parse`, configuration reads (`getExtensionConfig`), directory creation, file writes and the untitled-document fallback. These are I/O; the command is modelled from the point where it has a parsed value, a base name and a model type.
- `src/commands/generateModel.ts:38-51` builds the path inline instead of calling `buildFilePath`, with the same snake-case and path expressions. Only `buildFilePath` is modelled. The command's default base folder is `lib/models`, while `getExtensionConfig` uses `lib/data/models`; both are configuration defaults outside the model.
- `src/utils/collectionGenUtils.ts` (entirely commented out), `src/utils/singleGenUtils.ts` (UI glue) and `src/extension.ts` (activation) are not part of this model.
- Character set: `toUpperCase` and `toLowerCase` are modelled as ASCII letter maps, so non-ASCII letters keep their case. `\s` and `trim` use JavaScript's full white-space and line-terminator set.
- String entries: a string is modelled as a sequence of Unicode code points, while JavaScript indexes strings by UTF-16 code units. The two differ only for a string root (which `JSON.parse` accepts) holding characters outside the Basic Multilingual Plane: for `"😀"` the source builds a root class with two `String` fields, `0` and `1`, one per surrogate half, and the model one. A Dafny `char` cannot hold a lone surrogate, so the split is not modelled.
- Object entries are taken in iteration order with distinct keys. JavaScript's moving of integer-like keys to the front, and `JSON.parse`'s resolution of duplicate keys, happen before the value reaches the model.
- Numbers carry no value, because only their kind matters.
- The options the source declares but no generator reads (null safety, field case, Freezed, copyWith, Equatable, toString, part statement) are modelled only as data for `modelOptionsToSet`.
- The generators have no nullability handling and no Freezed strategy, so neither appears in the model. Nested class names keep the whole parent name, role word included. A `null` root with a new name throws, which is the `TypeError` outcome.
- Generator.GenerateDartModel: the contract of the function itself states deduplication and growth of the set only. The text it returns is described by `GenerateDartModelRendersPlan` and `RootClassLeads`.
- Command.CommandClassesServeRole: requires a non-`null` value, because a `null` value has no classes and throws (stated by `CommandSeedIsInert`).
