/** The recursive generator `generateDartModel`, in its current role-driven
    form and in its older always-`fromJson` form, which differ only in how a
    class is rendered.

    The set of already generated class names, mutated in place by the
    source, is threaded explicitly: every call takes the set it starts from
    and returns the set it leaves behind.

    `PlanOf` computes the same recursion structurally: the sequence of
    class blocks it emits (or `Elided` where a name had already been
    generated) and the final name set. `GenFollowsPlan` proves the text
    generator's output is exactly those blocks rendered and joined, which
    lets the properties of the output be stated on the plan. */
module Generator {
  import opened Text
  import opened JsonValue
  import opened Schema
  import Emit

  /** The class template of a generator: `Emit.RenderClass` for the current
      one, `Emit.RenderLegacyClass` for the older one. The recursion is the
      same for every template. */
  type Renderer = ClassBlock -> string

  /** A call's returned text and the name set it leaves behind. */
  datatype Generated = Generated(text: string, names: set<string>)

  /** The texts of the nested calls made for the entries from some index on,
      and the name set after the last of them. */
  datatype NestedTexts = NestedTexts(texts: seq<string>, names: set<string>)

  // ------------------------------------------------------------ text generator

  /** One call of `generateDartModel` on a value whose entries exist (an
      object or an array for every recursive call). */
  function Gen(render: Renderer, json: Json, className: string, generated: set<string>): (r: Generated)
    requires className in generated || !json.JNull?
    ensures className in generated ==> r == Generated("", generated)
    ensures className !in generated ==> className in r.names
    ensures generated <= r.names
    decreases json, 1
  {
    if className in generated then Generated("", generated)
    else
      var entries := Entries(json);
      var nested := GenNested(render, json, entries, className, 0, generated + {className});
      Generated(Join([render(BuildClass(className, entries))] + nested.texts, "\n\n"), nested.names)
  }

  /** The loop over the entries from index `i` on, collecting the text of
      every nested call in order. */
  function GenNested(render: Renderer, json: Json, entries: seq<(string, Json)>, className: string,
                     i: nat, generated: set<string>): (r: NestedTexts)
    requires entries == Entries(json) && i <= |entries|
    ensures generated <= r.names
    decreases json, 0, |entries| - i
  {
    if i == |entries| then NestedTexts([], generated)
    else
      match Infer(className, entries[i].0, entries[i].1).nested
      case None => GenNested(render, json, entries, className, i + 1, generated)
      case Some(n) =>
        var child := Gen(render, n.json, n.name, generated);
        var rest := GenNested(render, json, entries, className, i + 1, child.names);
        NestedTexts([child.text] + rest.texts, rest.names)
  }

  /** The outcome of a top-level call: `Object.entries(null)` throws when the
      root is `null` and its name has not been generated yet. The name has
      already been added to the caller's set by then, so the error carries
      the set as it is left behind. */
  datatype Outcome = Ok(value: Generated) | TypeError(names: set<string>)

  function Generate(render: Renderer, json: Json, className: string, generated: set<string>): (r: Outcome)
    ensures r.TypeError? <==> className !in generated && json.JNull?
    ensures r.TypeError? ==> r.names == generated + {className}
    ensures className in generated ==> r == Ok(Generated("", generated))
    ensures r.Ok? ==> generated <= r.value.names && className in r.value.names
  {
    if className !in generated && json.JNull? then TypeError(generated + {className})
    else Ok(Gen(render, json, className, generated))
  }

  /** `generateDartModel` of the current generator. */
  function GenerateDartModel(json: Json, className: string, generated: set<string>): (r: Outcome)
    ensures r.TypeError? <==> className !in generated && json.JNull?
    ensures r.TypeError? ==> r.names == generated + {className}
    ensures className in generated ==> r == Ok(Generated("", generated))
    ensures r.Ok? ==> generated <= r.value.names && className in r.value.names
  {
    Generate(Emit.RenderClass, json, className, generated)
  }

  /** `generateDartModel` of the older generator. */
  function LegacyGenerateDartModel(json: Json, className: string, generated: set<string>): (r: Outcome)
    ensures r.TypeError? <==> className !in generated && json.JNull?
    ensures r.TypeError? ==> r.names == generated + {className}
    ensures className in generated ==> r == Ok(Generated("", generated))
    ensures r.Ok? ==> generated <= r.value.names && className in r.value.names
  {
    Generate(Emit.RenderLegacyClass, json, className, generated)
  }

  // ------------------------------------------------------------------- the plan

  /** One segment of the output: a class, or the empty text of a call whose
      name had already been generated. */
  datatype Segment = Elided | Emitted(block: ClassBlock)

  datatype Plan = Plan(segments: seq<Segment>, names: set<string>)

  function EmittedNames(segments: seq<Segment>): set<string>
  {
    set s | s in segments && s.Emitted? :: s.block.name
  }

  /** No class name is emitted twice. */
  predicate DistinctNames(segments: seq<Segment>)
  {
    forall i, j :: 0 <= i < j < |segments| && segments[i].Emitted? && segments[j].Emitted? ==>
      segments[i].block.name != segments[j].block.name
  }

  /** Every class a block's fields refer to is among `names`. */
  predicate RefersWithin(b: ClassBlock, names: set<string>)
  {
    forall k :: 0 <= k < |b.fields| && ReferencedClass(b.fields[k].typ).Some? ==>
      ReferencedClass(b.fields[k].typ).value in names
  }

  /** Every emitted block refers only to classes among `names`. */
  predicate Closed(segments: seq<Segment>, names: set<string>)
  {
    forall s :: s in segments && s.Emitted? ==> RefersWithin(s.block, names)
  }

  lemma ClosedAppend(a: seq<Segment>, namesA: set<string>, b: seq<Segment>, names: set<string>)
    requires Closed(a, namesA) && namesA <= names && Closed(b, names)
    ensures Closed(a + b, names)
  {
    forall s | s in a + b && s.Emitted? ensures RefersWithin(s.block, names) {
      if s in a {
        assert RefersWithin(s.block, namesA);
      }
    }
  }

  lemma EmittedNamesAppend(a: seq<Segment>, b: seq<Segment>)
    ensures EmittedNames(a + b) == EmittedNames(a) + EmittedNames(b)
  {
    assert forall s :: s in a + b <==> s in a || s in b;
  }

  lemma DistinctAppend(a: seq<Segment>, b: seq<Segment>)
    requires DistinctNames(a) && DistinctNames(b) && EmittedNames(a) !! EmittedNames(b)
    ensures DistinctNames(a + b)
  {
    var ab := a + b;
    forall i, j | 0 <= i < j < |ab| && ab[i].Emitted? && ab[j].Emitted?
      ensures ab[i].block.name != ab[j].block.name
    {
      if j < |a| {
        assert ab[i] == a[i] && ab[j] == a[j];
      } else if i >= |a| {
        assert ab[i] == b[i - |a|] && ab[j] == b[j - |a|];
      } else {
        assert ab[i] == a[i] && ab[j] == b[j - |a|];
        assert ab[i].block.name in EmittedNames(a);
        assert ab[j].block.name in EmittedNames(b);
      }
    }
  }

  lemma PrefixTransitive(a: string, b: string, c: string)
    requires a <= b && b <= c
    ensures a <= c
  {
    assert c[..|a|] == b[..|a|];
  }

  /** The structural form of `Gen`: the emitted blocks in output order and
      the final name set. */
  function PlanOf(json: Json, className: string, generated: set<string>): (r: Plan)
    requires className in generated || !json.JNull?
    ensures className in generated ==> r == Plan([Elided], generated)
    ensures className !in generated ==>
      |r.segments| > 0 && r.segments[0] == Emitted(BuildClass(className, Entries(json)))
    ensures |r.segments| > 0 && className in r.names
    ensures generated <= r.names
    decreases json, 1
  {
    if className in generated then Plan([Elided], generated)
    else
      var entries := Entries(json);
      var root := BuildClass(className, entries);
      var rest := PlanFields(json, entries, className, 0, generated + {className});
      Plan([Emitted(root)] + rest.segments, rest.names)
  }

  /** The structural form of `GenNested`. */
  function PlanFields(json: Json, entries: seq<(string, Json)>, className: string,
                      i: nat, generated: set<string>): (r: Plan)
    requires entries == Entries(json) && i <= |entries|
    ensures generated <= r.names
    decreases json, 0, |entries| - i
  {
    if i == |entries| then Plan([], generated)
    else
      match Infer(className, entries[i].0, entries[i].1).nested
      case None => PlanFields(json, entries, className, i + 1, generated)
      case Some(n) =>
        var child := PlanOf(n.json, n.name, generated);
        var rest := PlanFields(json, entries, className, i + 1, child.names);
        Plan(child.segments + rest.segments, rest.names)
  }

  /** Deduplication: a call emits every class name at most once, never one
      that was generated before it, and leaves behind exactly the starting
      names plus the ones it emitted. */
  lemma {:induction false} PlanEmitsEachNameOnce(json: Json, className: string, generated: set<string>)
    requires className in generated || !json.JNull?
    ensures var r := PlanOf(json, className, generated);
      && r.names == generated + EmittedNames(r.segments)
      && DistinctNames(r.segments) && EmittedNames(r.segments) !! generated
    decreases json, 1
  {
    if className !in generated {
      var entries := Entries(json);
      var root := BuildClass(className, entries);
      var rest := PlanFields(json, entries, className, 0, generated + {className});
      assert PlanOf(json, className, generated) == Plan([Emitted(root)] + rest.segments, rest.names);
      PlanFieldsEmitEachNameOnce(json, entries, className, 0, generated + {className});
      EmittedNamesAppend([Emitted(root)], rest.segments);
      DistinctAppend([Emitted(root)], rest.segments);
    }
  }

  lemma {:induction false} PlanFieldsEmitEachNameOnce(json: Json, entries: seq<(string, Json)>, className: string,
                                                      i: nat, generated: set<string>)
    requires entries == Entries(json) && i <= |entries|
    ensures var r := PlanFields(json, entries, className, i, generated);
      && r.names == generated + EmittedNames(r.segments)
      && DistinctNames(r.segments) && EmittedNames(r.segments) !! generated
    decreases json, 0, |entries| - i, 1
  {
    if i < |entries| {
      if Infer(className, entries[i].0, entries[i].1).nested.Some? {
        ChildEmitsEachNameOnce(json, entries, className, i, generated);
      } else {
        PlanFieldsSkip(json, entries, className, i, generated);
        PlanFieldsEmitEachNameOnce(json, entries, className, i + 1, generated);
      }
    }
  }

  lemma {:induction false} ChildEmitsEachNameOnce(json: Json, entries: seq<(string, Json)>, className: string,
                                                  i: nat, generated: set<string>)
    requires entries == Entries(json) && i < |entries|
    requires Infer(className, entries[i].0, entries[i].1).nested.Some?
    ensures var r := PlanFields(json, entries, className, i, generated);
      && r.names == generated + EmittedNames(r.segments)
      && DistinctNames(r.segments) && EmittedNames(r.segments) !! generated
    decreases json, 0, |entries| - i, 0
  {
    var n := Infer(className, entries[i].0, entries[i].1).nested.value;
    var child := PlanOf(n.json, n.name, generated);
    var rest := PlanFields(json, entries, className, i + 1, child.names);
    PlanFieldsUnfold(json, entries, className, i, generated);
    assert PlanFields(json, entries, className, i, generated) == Plan(child.segments + rest.segments, rest.names);
    PlanEmitsEachNameOnce(n.json, n.name, generated);
    PlanFieldsEmitEachNameOnce(json, entries, className, i + 1, child.names);
    EachNameOnceConcat(child, rest, generated);
  }

  /** Emitting each name once survives concatenation: a plan that starts from
      `generated`, followed by one that starts from the first one's names. */
  lemma EachNameOnceConcat(first: Plan, second: Plan, generated: set<string>)
    requires first.names == generated + EmittedNames(first.segments)
    requires DistinctNames(first.segments) && EmittedNames(first.segments) !! generated
    requires second.names == first.names + EmittedNames(second.segments)
    requires DistinctNames(second.segments) && EmittedNames(second.segments) !! first.names
    ensures var segments := first.segments + second.segments;
      && second.names == generated + EmittedNames(segments)
      && DistinctNames(segments) && EmittedNames(segments) !! generated
  {
    EmittedNamesAppend(first.segments, second.segments);
    DistinctAppend(first.segments, second.segments);
  }

  /** Every class a call emits is named by extending the call's class name. */
  lemma {:induction false} PlanExtendsName(json: Json, className: string, generated: set<string>)
    requires className in generated || !json.JNull?
    ensures forall s :: s in PlanOf(json, className, generated).segments && s.Emitted? ==>
      className <= s.block.name
    decreases json, 1
  {
    if className !in generated {
      var entries := Entries(json);
      var rest := PlanFields(json, entries, className, 0, generated + {className});
      assert PlanOf(json, className, generated).segments
          == [Emitted(BuildClass(className, entries))] + rest.segments;
      PlanFieldsExtendName(json, entries, className, 0, generated + {className});
    }
  }

  lemma {:induction false} PlanFieldsExtendName(json: Json, entries: seq<(string, Json)>, className: string,
                                                i: nat, generated: set<string>)
    requires entries == Entries(json) && i <= |entries|
    ensures forall s :: s in PlanFields(json, entries, className, i, generated).segments && s.Emitted? ==>
      className <= s.block.name
    decreases json, 0, |entries| - i, 1
  {
    if i < |entries| {
      if Infer(className, entries[i].0, entries[i].1).nested.Some? {
        ChildExtendsName(json, entries, className, i, generated);
      } else {
        PlanFieldsSkip(json, entries, className, i, generated);
        PlanFieldsExtendName(json, entries, className, i + 1, generated);
      }
    }
  }

  lemma {:induction false} ChildExtendsName(json: Json, entries: seq<(string, Json)>, className: string,
                                            i: nat, generated: set<string>)
    requires entries == Entries(json) && i < |entries|
    requires Infer(className, entries[i].0, entries[i].1).nested.Some?
    ensures forall s :: s in PlanFields(json, entries, className, i, generated).segments && s.Emitted? ==>
      className <= s.block.name
    decreases json, 0, |entries| - i, 0
  {
    var n := Infer(className, entries[i].0, entries[i].1).nested.value;
    var child := PlanOf(n.json, n.name, generated);
    PlanFieldsUnfold(json, entries, className, i, generated);
    PlanExtendsName(n.json, n.name, generated);
    PlanFieldsExtendName(json, entries, className, i + 1, child.names);
    forall s | s in child.segments && s.Emitted? ensures className <= s.block.name {
      PrefixTransitive(className, n.name, s.block.name);
    }
  }

  /** Every class a call emits refers only to classes that are generated by
      the time the call returns: the output never names a class it lacks. */
  lemma {:induction false} PlanIsClosed(json: Json, className: string, generated: set<string>)
    requires className in generated || !json.JNull?
    ensures Closed(PlanOf(json, className, generated).segments, PlanOf(json, className, generated).names)
    decreases json, 1
  {
    if className !in generated {
      var entries := Entries(json);
      var root := BuildClass(className, entries);
      var rest := PlanFields(json, entries, className, 0, generated + {className});
      assert PlanOf(json, className, generated) == Plan([Emitted(root)] + rest.segments, rest.names);
      PlanFieldsAreClosed(json, entries, className, 0, generated + {className});
      assert RefersWithin(root, rest.names) by {
        forall k | 0 <= k < |root.fields| && ReferencedClass(root.fields[k].typ).Some?
          ensures ReferencedClass(root.fields[k].typ).value in rest.names
        {
          assert root.fields[k] == FieldOf(className, entries[k]);
        }
      }
      ClosedAppend([Emitted(root)], rest.names, rest.segments, rest.names);
    }
  }

  /** The loop's part: the blocks it emits are closed, and every class an
      entry from `i` on asks for is generated when it returns. */
  lemma {:induction false} PlanFieldsAreClosed(json: Json, entries: seq<(string, Json)>, className: string,
                                               i: nat, generated: set<string>)
    requires entries == Entries(json) && i <= |entries|
    ensures Closed(PlanFields(json, entries, className, i, generated).segments,
                   PlanFields(json, entries, className, i, generated).names)
    ensures forall k :: i <= k < |entries| && Infer(className, entries[k].0, entries[k].1).nested.Some? ==>
      Infer(className, entries[k].0, entries[k].1).nested.value.name in PlanFields(json, entries, className, i, generated).names
    decreases json, 0, |entries| - i, 1
  {
    if i < |entries| {
      if Infer(className, entries[i].0, entries[i].1).nested.Some? {
        ChildIsClosed(json, entries, className, i, generated);
      } else {
        var plan := PlanFields(json, entries, className, i, generated);
        PlanFieldsSkip(json, entries, className, i, generated);
        assert plan == PlanFields(json, entries, className, i + 1, generated);
        PlanFieldsAreClosed(json, entries, className, i + 1, generated);
        forall k | i <= k < |entries| && Infer(className, entries[k].0, entries[k].1).nested.Some?
          ensures Infer(className, entries[k].0, entries[k].1).nested.value.name in plan.names
        {
          assert k != i;
        }
      }
    }
  }

  lemma {:induction false} ChildIsClosed(json: Json, entries: seq<(string, Json)>, className: string,
                                         i: nat, generated: set<string>)
    requires entries == Entries(json) && i < |entries|
    requires Infer(className, entries[i].0, entries[i].1).nested.Some?
    ensures Closed(PlanFields(json, entries, className, i, generated).segments,
                   PlanFields(json, entries, className, i, generated).names)
    ensures forall k :: i <= k < |entries| && Infer(className, entries[k].0, entries[k].1).nested.Some? ==>
      Infer(className, entries[k].0, entries[k].1).nested.value.name in PlanFields(json, entries, className, i, generated).names
    decreases json, 0, |entries| - i, 0
  {
    var n := Infer(className, entries[i].0, entries[i].1).nested.value;
    var child := PlanOf(n.json, n.name, generated);
    var rest := PlanFields(json, entries, className, i + 1, child.names);
    var plan := PlanFields(json, entries, className, i, generated);
    PlanFieldsUnfold(json, entries, className, i, generated);
    assert plan == Plan(child.segments + rest.segments, rest.names);
    PlanIsClosed(n.json, n.name, generated);
    PlanFieldsAreClosed(json, entries, className, i + 1, child.names);
    ClosedAppend(child.segments, child.names, rest.segments, rest.names);
    forall k | i <= k < |entries| && Infer(className, entries[k].0, entries[k].1).nested.Some?
      ensures Infer(className, entries[k].0, entries[k].1).nested.value.name in plan.names
    {
      if k == i {
        assert n.name in child.names;
      }
    }
  }

  // ------------------------------------------------------- text follows plan

  function RenderSegment(render: Renderer, s: Segment): string
  {
    match s
    case Elided => ""
    case Emitted(b) => render(b)
  }

  function RenderAll(render: Renderer, segments: seq<Segment>): seq<string>
  {
    seq(|segments|, k requires 0 <= k < |segments| => RenderSegment(render, segments[k]))
  }

  /** The output of one call is the plan's segments rendered in order and
      separated by blank lines, and it leaves the plan's name set behind. */
  lemma {:induction false} GenFollowsPlan(render: Renderer, json: Json, className: string, generated: set<string>)
    requires className in generated || !json.JNull?
    ensures Gen(render, json, className, generated).text
         == Join(RenderAll(render, PlanOf(json, className, generated).segments), "\n\n")
    ensures Gen(render, json, className, generated).names == PlanOf(json, className, generated).names
    decreases json, 1
  {
    if className in generated {
      assert RenderAll(render, [Elided]) == [""];
    } else {
      var entries := Entries(json);
      var root := BuildClass(className, entries);
      var seed := generated + {className};
      var nested := GenNested(render, json, entries, className, 0, seed);
      var rest := PlanFields(json, entries, className, 0, seed);
      assert Gen(render, json, className, generated)
          == Generated(Join([render(root)] + nested.texts, "\n\n"), nested.names);
      assert PlanOf(json, className, generated) == Plan([Emitted(root)] + rest.segments, rest.names);
      GenNestedFollowsPlan(render, json, entries, className, 0, seed, render(root));
      JoinAfterIsJoin(render(root), nested.texts, "\n\n");
      JoinAfterIsJoin(render(root), RenderAll(render, rest.segments), "\n\n");
      RenderAllAppend(render, [Emitted(root)], rest.segments);
      assert RenderAll(render, [Emitted(root)]) == [render(root)];
    }
  }

  lemma RenderAllAppend(render: Renderer, a: seq<Segment>, b: seq<Segment>)
    ensures RenderAll(render, a + b) == RenderAll(render, a) + RenderAll(render, b)
  {
  }

  /** One step of `GenNestedFollowsPlan`: the child's text, produced from
      its segments, may be replaced by them. */
  lemma SpliceChild(render: Renderer, head: string, childText: string, restTexts: seq<string>,
                    childSegments: seq<Segment>, restSegments: seq<Segment>)
    requires |childSegments| > 0 && Join(RenderAll(render, childSegments), "\n\n") == childText
    requires JoinAfter(head + "\n\n" + childText, restTexts, "\n\n")
          == JoinAfter(head + "\n\n" + childText, RenderAll(render, restSegments), "\n\n")
    ensures JoinAfter(head, [childText] + restTexts, "\n\n")
         == JoinAfter(head, RenderAll(render, childSegments + restSegments), "\n\n")
  {
    RenderAllAppend(render, childSegments, restSegments);
    JoinAfterSplice(head, childText, restTexts, RenderAll(render, childSegments),
                    RenderAll(render, restSegments), "\n\n");
  }

  /** The loop's texts, appended after any leading text `head`, equal the
      plan's segments rendered and appended after `head`. */
  lemma {:induction false} GenNestedFollowsPlan(render: Renderer, json: Json, entries: seq<(string, Json)>,
                                                className: string, i: nat, generated: set<string>, head: string)
    requires entries == Entries(json) && i <= |entries|
    ensures GenNested(render, json, entries, className, i, generated).names
         == PlanFields(json, entries, className, i, generated).names
    ensures JoinAfter(head, GenNested(render, json, entries, className, i, generated).texts, "\n\n")
         == JoinAfter(head, RenderAll(render, PlanFields(json, entries, className, i, generated).segments), "\n\n")
    decreases json, 0, |entries| - i, 1
  {
    if i < |entries| {
      if Infer(className, entries[i].0, entries[i].1).nested.Some? {
        ChildFollowsPlan(render, json, entries, className, i, generated, head);
      } else {
        GenNestedFollowsPlan(render, json, entries, className, i + 1, generated, head);
        SkipFollowsPlan(render, json, entries, className, i, generated, head);
      }
    }
  }

  /** One step of the loop at an entry that asks for a nested class. */
  lemma GenNestedUnfold(render: Renderer, json: Json, entries: seq<(string, Json)>,
                        className: string, i: nat, generated: set<string>)
    requires entries == Entries(json) && i < |entries|
    requires Infer(className, entries[i].0, entries[i].1).nested.Some?
    ensures var n := Infer(className, entries[i].0, entries[i].1).nested.value;
      var child := Gen(render, n.json, n.name, generated);
      var rest := GenNested(render, json, entries, className, i + 1, child.names);
      GenNested(render, json, entries, className, i, generated) == NestedTexts([child.text] + rest.texts, rest.names)
  {
  }

  /** One step of the plan's loop at an entry that asks for a nested class. */
  lemma PlanFieldsUnfold(json: Json, entries: seq<(string, Json)>,
                        className: string, i: nat, generated: set<string>)
    requires entries == Entries(json) && i < |entries|
    requires Infer(className, entries[i].0, entries[i].1).nested.Some?
    ensures var n := Infer(className, entries[i].0, entries[i].1).nested.value;
      var child := PlanOf(n.json, n.name, generated);
      var rest := PlanFields(json, entries, className, i + 1, child.names);
      PlanFields(json, entries, className, i, generated) == Plan(child.segments + rest.segments, rest.names)
  {
  }

  /** One step of the plan's loop at an entry that asks for no nested class. */
  lemma GenNestedSkip(render: Renderer, json: Json, entries: seq<(string, Json)>,
                      className: string, i: nat, generated: set<string>)
    requires entries == Entries(json) && i < |entries|
    requires Infer(className, entries[i].0, entries[i].1).nested.None?
    ensures GenNested(render, json, entries, className, i, generated)
         == GenNested(render, json, entries, className, i + 1, generated)
  {
  }

  lemma PlanFieldsSkip(json: Json, entries: seq<(string, Json)>,
                       className: string, i: nat, generated: set<string>)
    requires entries == Entries(json) && i < |entries|
    requires Infer(className, entries[i].0, entries[i].1).nested.None?
    ensures PlanFields(json, entries, className, i, generated) == PlanFields(json, entries, className, i + 1, generated)
  {
  }

  /** `GenNestedFollowsPlan` at an entry that asks for no nested class: both
      scans move on to the next entry with the same set. */
  lemma SkipFollowsPlan(render: Renderer, json: Json, entries: seq<(string, Json)>,
                        className: string, i: nat, generated: set<string>, head: string)
    requires entries == Entries(json) && i < |entries|
    requires Infer(className, entries[i].0, entries[i].1).nested.None?
    requires GenNested(render, json, entries, className, i + 1, generated).names
          == PlanFields(json, entries, className, i + 1, generated).names
    requires JoinAfter(head, GenNested(render, json, entries, className, i + 1, generated).texts, "\n\n")
          == JoinAfter(head, RenderAll(render, PlanFields(json, entries, className, i + 1, generated).segments), "\n\n")
    ensures GenNested(render, json, entries, className, i, generated).names
         == PlanFields(json, entries, className, i, generated).names
    ensures JoinAfter(head, GenNested(render, json, entries, className, i, generated).texts, "\n\n")
         == JoinAfter(head, RenderAll(render, PlanFields(json, entries, className, i, generated).segments), "\n\n")
  {
    GenNestedSkip(render, json, entries, className, i, generated);
    PlanFieldsSkip(json, entries, className, i, generated);
  }

  /** `GenNestedFollowsPlan` at an entry that asks for a nested class. */
  lemma {:induction false} ChildFollowsPlan(render: Renderer, json: Json, entries: seq<(string, Json)>,
                                            className: string, i: nat, generated: set<string>, head: string)
    requires entries == Entries(json) && i < |entries|
    requires Infer(className, entries[i].0, entries[i].1).nested.Some?
    ensures GenNested(render, json, entries, className, i, generated).names
         == PlanFields(json, entries, className, i, generated).names
    ensures JoinAfter(head, GenNested(render, json, entries, className, i, generated).texts, "\n\n")
         == JoinAfter(head, RenderAll(render, PlanFields(json, entries, className, i, generated).segments), "\n\n")
    decreases json, 0, |entries| - i, 0
  {
    var n := Infer(className, entries[i].0, entries[i].1).nested.value;
    var child := Gen(render, n.json, n.name, generated);
    var childPlan := PlanOf(n.json, n.name, generated);
    GenFollowsPlan(render, n.json, n.name, generated);
    var rest := GenNested(render, json, entries, className, i + 1, child.names);
    var restPlan := PlanFields(json, entries, className, i + 1, child.names);
    var texts := GenNested(render, json, entries, className, i, generated);
    var plan := PlanFields(json, entries, className, i, generated);
    GenNestedUnfold(render, json, entries, className, i, generated);
    PlanFieldsUnfold(json, entries, className, i, generated);
    assert texts == NestedTexts([child.text] + rest.texts, rest.names);
    assert plan == Plan(childPlan.segments + restPlan.segments, restPlan.names);
    GenNestedFollowsPlan(render, json, entries, className, i + 1, child.names, head + "\n\n" + child.text);
    SpliceChild(render, head, child.text, rest.texts, childPlan.segments, restPlan.segments);
  }

  /** A top-level call either throws or returns the plan's rendering. */
  lemma GenerateFollowsPlan(render: Renderer, json: Json, className: string, generated: set<string>)
    ensures Generate(render, json, className, generated).TypeError? <==> className !in generated && json.JNull?
    ensures Generate(render, json, className, generated).Ok? ==>
      Generate(render, json, className, generated).value
      == Generated(Join(RenderAll(render, PlanOf(json, className, generated).segments), "\n\n"),
                   PlanOf(json, className, generated).names)
  {
    if className in generated || !json.JNull? {
      GenFollowsPlan(render, json, className, generated);
    }
  }

  // ------------------------------------------------- the two generators' output

  /** The reference rendering of the current generator: every class with the
      methods its own name selects. */
  function RoleText(b: ClassBlock): string
  {
    Emit.ClassText(b, Methods(b.name))
  }

  /** The reference rendering of the older generator: `fromJson` only. */
  function FromJsonText(b: ClassBlock): string
  {
    Emit.ClassText(b, [FromJson])
  }

  /** Segment-wise equal templates render a plan identically. */
  lemma RenderAllAgree(r1: Renderer, r2: Renderer, segments: seq<Segment>)
    requires forall s :: s in segments && s.Emitted? ==> r1(s.block) == r2(s.block)
    ensures RenderAll(r1, segments) == RenderAll(r2, segments)
  {
    forall k | 0 <= k < |segments|
      ensures RenderAll(r1, segments)[k] == RenderAll(r2, segments)[k]
    {
      assert segments[k] in segments;
    }
  }

  /** The current generator's output: every class of the plan, in order,
      with exactly the methods its name selects, separated by blank lines;
      the name set it leaves is the plan's. */
  lemma GenerateDartModelRendersPlan(json: Json, className: string, generated: set<string>)
    ensures GenerateDartModel(json, className, generated).Ok? ==>
      GenerateDartModel(json, className, generated).value
      == Generated(Join(RenderAll(RoleText, PlanOf(json, className, generated).segments), "\n\n"),
                   PlanOf(json, className, generated).names)
  {
    GenerateFollowsPlan(Emit.RenderClass, json, className, generated);
    if GenerateDartModel(json, className, generated).Ok? {
      var segments := PlanOf(json, className, generated).segments;
      forall s | s in segments && s.Emitted? ensures Emit.RenderClass(s.block) == RoleText(s.block) {
        Emit.RenderClassFollowsRole(s.block);
      }
      RenderAllAgree(Emit.RenderClass, RoleText, segments);
    }
  }

  /** The older generator's output: the same classes in the same order and
      the same name set, every class with `fromJson` and nothing else. */
  lemma LegacyRendersPlan(json: Json, className: string, generated: set<string>)
    ensures LegacyGenerateDartModel(json, className, generated).Ok? ==>
      LegacyGenerateDartModel(json, className, generated).value
      == Generated(Join(RenderAll(FromJsonText, PlanOf(json, className, generated).segments), "\n\n"),
                   PlanOf(json, className, generated).names)
  {
    GenerateFollowsPlan(Emit.RenderLegacyClass, json, className, generated);
    if LegacyGenerateDartModel(json, className, generated).Ok? {
      var segments := PlanOf(json, className, generated).segments;
      forall s | s in segments && s.Emitted? ensures Emit.RenderLegacyClass(s.block) == FromJsonText(s.block) {
        Emit.RenderLegacyIsFromJsonOnly(s.block);
      }
      RenderAllAgree(Emit.RenderLegacyClass, FromJsonText, segments);
    }
  }

  /** The first class of the output is the root class: one field per entry
      of the root value, in entry order, rendered with the methods its name
      selects (the current generator) or with `fromJson` alone (the older
      one). */
  lemma RootClassLeads(json: Json, className: string, generated: set<string>)
    requires className !in generated && !json.JNull?
    ensures GenerateDartModel(json, className, generated).Ok?
    ensures LegacyGenerateDartModel(json, className, generated).Ok?
    ensures var root := BuildClass(className, Entries(json));
      && |root.fields| == |Entries(json)|
      && RoleText(root) <= GenerateDartModel(json, className, generated).value.text
      && FromJsonText(root) <= LegacyGenerateDartModel(json, className, generated).value.text
  {
    var root := BuildClass(className, Entries(json));
    var segments := PlanOf(json, className, generated).segments;
    GenerateDartModelRendersPlan(json, className, generated);
    LegacyRendersPlan(json, className, generated);
    assert RenderAll(RoleText, segments)[0] == RoleText(root);
    assert RenderAll(FromJsonText, segments)[0] == FromJsonText(root);
    JoinStartsWithFirst(RenderAll(RoleText, segments), "\n\n");
    JoinStartsWithFirst(RenderAll(FromJsonText, segments), "\n\n");
  }

  /** Every class emitted below a root whose name contains `request`
      (`response`) also contains that word, so it also gets `toJson`
      (`fromJson`). */
  lemma NestedClassesKeepRole(json: Json, className: string, generated: set<string>)
    requires className in generated || !json.JNull?
    ensures forall s :: s in PlanOf(json, className, generated).segments && s.Emitted? ==>
      && (IsRequestName(className) ==> ToJson in Methods(s.block.name))
      && (IsResponseName(className) ==> FromJson in Methods(s.block.name))
  {
    PlanExtendsName(json, className, generated);
    forall s | s in PlanOf(json, className, generated).segments && s.Emitted?
      ensures IsRequestName(className) ==> ToJson in Methods(s.block.name)
      ensures IsResponseName(className) ==> FromJson in Methods(s.block.name)
    {
      RoleInherited(className, s.block.name);
    }
  }

  /** When the root's name contains `response` and no emitted class name
      contains `request`, both generators produce the same text. */
  lemma GeneratorsAgreeOnResponses(json: Json, className: string, generated: set<string>)
    requires IsResponseName(className)
    requires className in generated || !json.JNull?
    requires forall s :: s in PlanOf(json, className, generated).segments && s.Emitted? ==>
      !IsRequestName(s.block.name)
    ensures LegacyGenerateDartModel(json, className, generated) == GenerateDartModel(json, className, generated)
  {
    var segments := PlanOf(json, className, generated).segments;
    GenerateFollowsPlan(Emit.RenderClass, json, className, generated);
    GenerateFollowsPlan(Emit.RenderLegacyClass, json, className, generated);
    PlanExtendsName(json, className, generated);
    forall s | s in segments && s.Emitted?
      ensures Emit.RenderLegacyClass(s.block) == Emit.RenderClass(s.block)
    {
      RoleInherited(className, s.block.name);
      Emit.LegacyMatchesResponseClass(s.block);
    }
    RenderAllAgree(Emit.RenderLegacyClass, Emit.RenderClass, segments);
  }

  // ------------------------------------------------------ unrelated seed names

  /** Names in the starting set that do not extend the class name play no
      part: the plan is the same and they are merely carried along. */
  lemma {:induction false} PlanIgnoresUnrelated(json: Json, className: string, generated: set<string>, extra: set<string>)
    requires className in generated || !json.JNull?
    requires forall x :: x in extra ==> !(className <= x)
    ensures PlanOf(json, className, generated + extra).segments == PlanOf(json, className, generated).segments
    ensures PlanOf(json, className, generated + extra).names == PlanOf(json, className, generated).names + extra
    decreases json, 1
  {
    assert className !in extra;
    if className !in generated {
      var entries := Entries(json);
      PlanFieldsIgnoreUnrelated(json, entries, className, 0, generated + {className}, extra);
      assert generated + extra + {className} == generated + {className} + extra;
    }
  }

  lemma {:induction false} PlanFieldsIgnoreUnrelated(json: Json, entries: seq<(string, Json)>, className: string,
                                                     i: nat, generated: set<string>, extra: set<string>)
    requires entries == Entries(json) && i <= |entries|
    requires forall x :: x in extra ==> !(className <= x)
    ensures PlanFields(json, entries, className, i, generated + extra).segments
         == PlanFields(json, entries, className, i, generated).segments
    ensures PlanFields(json, entries, className, i, generated + extra).names
         == PlanFields(json, entries, className, i, generated).names + extra
    decreases json, 0, |entries| - i, 1
  {
    if i < |entries| {
      if Infer(className, entries[i].0, entries[i].1).nested.Some? {
        ChildIgnoresUnrelated(json, entries, className, i, generated, extra);
      } else {
        PlanFieldsSkip(json, entries, className, i, generated);
        PlanFieldsSkip(json, entries, className, i, generated + extra);
        PlanFieldsIgnoreUnrelated(json, entries, className, i + 1, generated, extra);
      }
    }
  }

  lemma {:induction false} ChildIgnoresUnrelated(json: Json, entries: seq<(string, Json)>, className: string,
                                                 i: nat, generated: set<string>, extra: set<string>)
    requires entries == Entries(json) && i < |entries|
    requires Infer(className, entries[i].0, entries[i].1).nested.Some?
    requires forall x :: x in extra ==> !(className <= x)
    ensures PlanFields(json, entries, className, i, generated + extra).segments
         == PlanFields(json, entries, className, i, generated).segments
    ensures PlanFields(json, entries, className, i, generated + extra).names
         == PlanFields(json, entries, className, i, generated).names + extra
    decreases json, 0, |entries| - i, 0
  {
    var n := Infer(className, entries[i].0, entries[i].1).nested.value;
    forall x | x in extra ensures !(n.name <= x) {
      if n.name <= x {
        PrefixTransitive(className, n.name, x);
      }
    }
    var child := PlanOf(n.json, n.name, generated);
    var child' := PlanOf(n.json, n.name, generated + extra);
    PlanIgnoresUnrelated(n.json, n.name, generated, extra);
    assert child' == Plan(child.segments, child.names + extra);
    var rest := PlanFields(json, entries, className, i + 1, child.names);
    var rest' := PlanFields(json, entries, className, i + 1, child.names + extra);
    PlanFieldsIgnoreUnrelated(json, entries, className, i + 1, child.names, extra);
    assert rest' == Plan(rest.segments, rest.names + extra);
    PlanFieldsUnfold(json, entries, className, i, generated);
    assert PlanFields(json, entries, className, i, generated) == Plan(child.segments + rest.segments, rest.names);
    PlanFieldsUnfold(json, entries, className, i, generated + extra);
    assert PlanFields(json, entries, className, i, generated + extra)
        == Plan(child'.segments + rest'.segments, rest'.names);
  }
}
