/** The Dart text of one class. `RenderClass` is the role-driven template
    of the current generator, `RenderLegacyClass` the always-`fromJson`
    template of the older one; `ClassText` renders a block with an explicit
    list of methods and serves as the reference both are compared with. */
module Emit {
  import opened Text
  import opened Schema

  /** How a field's value is read from the decoded map. */
  function SourceRead(key: string): string
  {
    "json['" + key + "']"
  }

  /** The expression that decodes one field. */
  function ParseCode(f: Field): string
  {
    match f.typ
    case ListOf(ClassRef(n)) => "(" + SourceRead(f.key) + " as List).map((e) => " + n + ".fromJson(e)).toList()"
    case ClassRef(n) => n + ".fromJson(" + SourceRead(f.key) + ")"
    case _ => SourceRead(f.key)
  }

  /** The map entry that encodes one field. */
  function ToJsonCode(f: Field): string
  {
    var entry := "'" + f.key + "': " + f.varName;
    match f.typ
    case ListOf(ClassRef(_)) => entry + ".map((e) => e.toJson()).toList()"
    case ClassRef(_) => entry + ".toJson()"
    case _ => entry
  }

  function DeclLine(f: Field): string { "  final " + DartName(f.typ) + " " + f.varName + ";" }

  function ParamLine(f: Field): string { "    required this." + f.varName + "," }

  function FromJsonLine(f: Field): string { "      " + f.varName + ": " + ParseCode(f) + "," }

  function ToJsonLine(f: Field): string { "      " + ToJsonCode(f) + "," }

  /** One line per field, in field order. */
  function EachField(fields: seq<Field>, line: Field -> string): seq<string>
  {
    seq(|fields|, i requires 0 <= i < |fields| => line(fields[i]))
  }

  /** Fields and constructor, up to the closing `});`. */
  function ClassHead(b: ClassBlock): string
  {
    "class " + b.name + " {\n"
    + Join(EachField(b.fields, DeclLine), "\n")
    + "\n\n  const " + b.name + "({\n"
    + Join(EachField(b.fields, ParamLine), "\n")
    + "\n  });"
  }

  function FromJsonMethod(b: ClassBlock): string
  {
    "\n\n  factory " + b.name + ".fromJson(Map<String, dynamic> json) {\n    return " + b.name + "(\n"
    + Join(EachField(b.fields, FromJsonLine), "\n")
    + "\n    );\n  }"
  }

  function ToJsonMethod(b: ClassBlock): string
  {
    "\n\n  Map<String, dynamic> toJson() {\n    return {\n"
    + Join(EachField(b.fields, ToJsonLine), "\n")
    + "\n    };\n  }"
  }

  function MethodText(b: ClassBlock, m: Method): string
  {
    match m
    case FromJson => FromJsonMethod(b)
    case ToJson => ToJsonMethod(b)
  }

  function MethodsText(b: ClassBlock, ms: seq<Method>): string
  {
    if |ms| == 0 then "" else MethodText(b, ms[0]) + MethodsText(b, ms[1..])
  }

  /** The reference rendering: head, the listed methods in order, closing
      brace. */
  function ClassText(b: ClassBlock, ms: seq<Method>): string
  {
    ClassHead(b) + MethodsText(b, ms) + "\n}"
  }

  /** The current generator's class template, with the methods chosen by the
      substring tests on the class name, trimmed as a whole. */
  function RenderClass(b: ClassBlock): string
  {
    Trim("\n" + ClassHead(b) + RoleMethods(b) + "\n}" + "\n")
  }

  /** The older generator's class template: always `fromJson`, never
      `toJson`. */
  function RenderLegacyClass(b: ClassBlock): string
  {
    Trim(
      "\nclass " + b.name + " {\n"
      + Join(EachField(b.fields, DeclLine), "\n")
      + "\n\n  const " + b.name + "({\n"
      + Join(EachField(b.fields, ParamLine), "\n")
      + "\n  });\n\n  factory " + b.name + ".fromJson(Map<String, dynamic> json) {\n    return " + b.name + "(\n"
      + Join(EachField(b.fields, FromJsonLine), "\n")
      + "\n    );\n  }\n}\n")
  }

  /** The trimmed template is exactly the head, the listed methods and the
      closing brace: `trim` removes only the template's outer line breaks. */
  lemma TrimmedClass(b: ClassBlock, methods: string)
    ensures Trim("\n" + ClassHead(b) + methods + "\n}" + "\n") == ClassHead(b) + methods + "\n}"
  {
    var body := ClassHead(b) + methods + "\n}";
    assert body[0] == 'c';
    assert body[|body| - 1] == '}';
    assert "\n" + ClassHead(b) + methods + "\n}" + "\n" == "\n" + body + "\n";
    TrimTemplate(body);
  }

  /** The methods the current template appends, as chosen by its two
      substring tests. */
  function RoleMethods(b: ClassBlock): string
  {
    var isRequest := IsRequestName(b.name);
    var isResponse := IsResponseName(b.name);
    (if isResponse || (!isRequest && !isResponse) then FromJsonMethod(b) else "")
    + (if isRequest || (!isRequest && !isResponse) then ToJsonMethod(b) else "")
  }

  lemma MethodsTextSingle(b: ClassBlock, m: Method)
    ensures MethodsText(b, [m]) == MethodText(b, m)
  {
    assert MethodsText(b, [m]) == MethodText(b, m) + MethodsText(b, []);
  }

  lemma MethodsTextBoth(b: ClassBlock)
    ensures MethodsText(b, [FromJson, ToJson]) == FromJsonMethod(b) + ToJsonMethod(b)
  {
    assert [FromJson, ToJson][1..] == [ToJson];
    MethodsTextSingle(b, ToJson);
  }

  /** The two substring tests append exactly the methods `Methods` lists. */
  lemma RoleMethodsFollowRole(b: ClassBlock)
    ensures RoleMethods(b) == MethodsText(b, Methods(b.name))
  {
    var ms := Methods(b.name);
    if ms == [FromJson] {
      MethodsTextSingle(b, FromJson);
      assert RoleMethods(b) == FromJsonMethod(b) + "";
    } else if ms == [ToJson] {
      MethodsTextSingle(b, ToJson);
      assert RoleMethods(b) == "" + ToJsonMethod(b);
    } else {
      MethodsTextBoth(b);
    }
  }

  /** The current template emits exactly the methods `Methods` selects, in
      that order. */
  lemma RenderClassFollowsRole(b: ClassBlock)
    ensures RenderClass(b) == ClassText(b, Methods(b.name))
  {
    TrimmedClass(b, RoleMethods(b));
    RoleMethodsFollowRole(b);
  }

  /** Regrouping of the older template's pieces around the reference
      rendering's pieces, over arbitrary strings. */
  lemma LegacyRegroup(n: string, f: string, c: string, j: string,
                      a0: string, a1: string, a2: string, a3: string, a4: string,
                      a5: string, a6: string, a7: string,
                      b0: string, b1: string, b4: string, b5: string, b7: string, b8: string, b9: string)
    requires a0 == b0 + b1 && a4 == b4 + b5 && a7 == b7 + b8 + b9
    ensures a0 + n + a1 + f + a2 + n + a3 + c + a4 + n + a5 + n + a6 + j + a7
         == b0 + (b1 + n + a1 + f + a2 + n + a3 + c + b4) + (b5 + n + a5 + n + a6 + j + b7) + b8 + b9
  {
  }

  /** The older template is the reference rendering with `fromJson` only. */
  lemma RenderLegacyIsFromJsonOnly(b: ClassBlock)
    ensures RenderLegacyClass(b) == ClassText(b, [FromJson])
  {
    var fromJson := FromJsonMethod(b);
    assert MethodsText(b, [FromJson]) == fromJson;
    assert "\nclass " == "\n" + "class ";
    assert "\n  });\n\n  factory " == "\n  });" + "\n\n  factory ";
    assert "\n    );\n  }\n}\n" == "\n    );\n  }" + "\n}" + "\n";
    LegacyRegroup(b.name, Join(EachField(b.fields, DeclLine), "\n"), Join(EachField(b.fields, ParamLine), "\n"),
      Join(EachField(b.fields, FromJsonLine), "\n"),
      "\nclass ", " {\n", "\n\n  const ", "({\n", "\n  });\n\n  factory ",
      ".fromJson(Map<String, dynamic> json) {\n    return ", "(\n", "\n    );\n  }\n}\n",
      "\n", "class ", "\n  });", "\n\n  factory ", "\n    );\n  }", "\n}", "\n");
    TrimmedClass(b, fromJson);
  }

  /** For a name containing `response` but not `request` the two generators
      produce the same class text, character for character. */
  lemma LegacyMatchesResponseClass(b: ClassBlock)
    requires IsResponseName(b.name) && !IsRequestName(b.name)
    ensures RenderLegacyClass(b) == RenderClass(b)
  {
    RenderClassFollowsRole(b);
    RenderLegacyIsFromJsonOnly(b);
  }

  /** The decode expression of every field reads the original JSON key. */
  lemma ParseCodeReadsKey(f: Field)
    ensures Contains(ParseCode(f), SourceRead(f.key))
  {
    var read := SourceRead(f.key);
    assert Contains(read, read) by { assert read[..|read|] == read; }
    match f.typ
    case ListOf(ClassRef(n)) =>
      var rest := " as List).map((e) => " + n + ".fromJson(e)).toList()";
      ContainsWithin("(", read, rest, read);
      assert "(" + read + rest == ParseCode(f);
    case ClassRef(n) =>
      ContainsWithin(n + ".fromJson(", read, ")", read);
    case _ =>
  }

  /** Every decode line assigns the camel-cased variable from a read of the
      original JSON key. */
  lemma FromJsonLineReadsKey(f: Field)
    ensures ("      " + f.varName + ": ") <= FromJsonLine(f)
    ensures Contains(FromJsonLine(f), SourceRead(f.key))
  {
    ParseCodeReadsKey(f);
    ContainsWithin("      " + f.varName + ": ", ParseCode(f), ",", SourceRead(f.key));
  }

  /** Every encode line writes the camel-cased variable under the original
      JSON key. */
  lemma ToJsonLineWritesKey(f: Field)
    ensures ("      '" + f.key + "': " + f.varName) <= ToJsonLine(f)
  {
    var entry := "'" + f.key + "': " + f.varName;
    var tail := ToJsonCode(f)[|entry|..] + ",";
    assert entry <= ToJsonCode(f);
    assert ToJsonLine(f) == ("      " + entry) + tail;
    assert "      " + entry == "      '" + f.key + "': " + f.varName;
  }
}
