/**
 * `analyze_code`: a shallow static check of one uploaded Python file.
 *
 * Python's parser is an oracle. Its outcome is given as a `ParseOutcome`:
 * either the nodes of the syntax tree in the order `ast.walk` visits them,
 * or the failure it raises. Only the node kinds the analysis looks at are
 * told apart.
 */
module Analyzer {
  import opened Text

  /** The context of a `Name` node: read, written or deleted. */
  datatype Context = Load | Store | Del

  /** An assignment target: a plain name, or anything else (a tuple, an
      attribute, a subscript, ...). */
  datatype Target = NameTarget(id: string) | OtherTarget

  datatype Node =
    | Assign(targets: seq<Target>)
    | Name(id: string, ctx: Context)
    | Global(names: seq<string>)
    | OtherNode

  /** What parsing the code gives: the walk of the tree, a `SyntaxError`
      with its text, or another exception the parser raises. */
  datatype ParseOutcome =
    | Parsed(walk: seq<Node>)
    | SyntaxError(message: string)
    | OtherParseError(message: string)

  /** An entry of the improvements list. The text of the unused-variable
      entry lists the names in set order; the model keeps the set. */
  datatype Improvement =
    | UnusedVariables(names: set<string>)
    | AdvancedAnalysisError(detail: string)
    | AvoidGlobals

  datatype Analysis = Analysis(syntaxErrors: seq<string>, improvements: seq<Improvement>)

  /** `analyze_code` either returns its analysis or lets an exception escape. */
  datatype Outcome = Returned(analysis: Analysis) | Raised(error: string)

  /** The phrase of the knowledge base that switches the globals rule on. */
  const GlobalsTrigger: string := "não use variáveis globais"

  /** The stretch of the knowledge base at `i` lowers to the phrase. */
  predicate PhraseAt(knowledgeBase: string, i: nat) {
    i + |GlobalsTrigger| <= |knowledgeBase| &&
    Lower(knowledgeBase[i..i + |GlobalsTrigger|]) == GlobalsTrigger
  }

  /** The lower-cased knowledge base contains the trigger phrase: exactly
      when some stretch of the knowledge base lowers to the phrase. */
  predicate Triggered(knowledgeBase: string): (on: bool)
    ensures on <==> exists i: nat :: PhraseAt(knowledgeBase, i)
  {
    var lowered := Lower(knowledgeBase);
    assert forall i: nat :: OccursAt(lowered, GlobalsTrigger, i) <==> PhraseAt(knowledgeBase, i) by {
      forall i: nat | i + |GlobalsTrigger| <= |knowledgeBase| {
        LowerSlice(knowledgeBase, i, i + |GlobalsTrigger|);
      }
    }
    Contains(lowered, GlobalsTrigger)
  }

  /** The rule is switched on by the phrase written in any mix of cases,
      with any text around it. */
  lemma TriggeredIgnoresCase(before: string, phrase: string, after: string)
    requires Lower(phrase) == GlobalsTrigger
    ensures Triggered(before + phrase + after)
  {
    var kb := before + phrase + after;
    assert kb[|before|..|before| + |phrase|] == phrase;
    assert PhraseAt(kb, |before|);
  }

  // ------------------------------------------------ the unused-variable pass

  /** The plain names among the targets of an assignment. */
  function TargetNames(targets: seq<Target>): set<string> {
    set k | 0 <= k < |targets| && targets[k].NameTarget? :: targets[k].id
  }

  /** The effect of one visited node on the candidate set: only the names
      the node assigns join it, and only the name it reads leaves it. */
  function Visit(vars: set<string>, node: Node): (r: set<string>)
    ensures forall x :: x in r && x !in vars ==> Adds(node, x)
    ensures forall x :: x in vars && x !in r ==> Discards(node, x)
  {
    match node
    case Assign(targets) => vars + TargetNames(targets)
    case Name(id, ctx) => if ctx == Load then vars - {id} else vars
    case _ => vars
  }

  /** The candidate set after visiting `walk`, starting from `vars`. */
  function Scan(vars: set<string>, walk: seq<Node>): set<string>
    decreases |walk|
  {
    if walk == [] then vars else Scan(Visit(vars, walk[0]), walk[1..])
  }

  /** A name joins the candidate set only through an assignment in the
      walk, and leaves it only through a read in the walk. */
  lemma {:induction false} ScanChanges(vars: set<string>, walk: seq<Node>)
    ensures forall x :: x in Scan(vars, walk) && x !in vars ==>
      exists i :: 0 <= i < |walk| && Adds(walk[i], x)
    ensures forall x :: x in vars && x !in Scan(vars, walk) ==>
      exists i :: 0 <= i < |walk| && Discards(walk[i], x)
    decreases |walk|
  {
    if walk != [] {
      ScanChanges(Visit(vars, walk[0]), walk[1..]);
      assert forall i :: 0 <= i < |walk| - 1 ==> walk[1..][i] == walk[i + 1];
    }
  }

  /** The names the pass reports as defined but never used: each of them is
      assigned somewhere in the walk. */
  function UnusedNames(walk: seq<Node>): (r: set<string>)
    ensures forall x :: x in r ==> exists i :: 0 <= i < |walk| && Adds(walk[i], x)
  {
    ScanChanges({}, walk);
    Scan({}, walk)
  }

  /** `node` is an assignment with the plain name `x` among its targets. */
  predicate Adds(node: Node, x: string) {
    node.Assign? && x in TargetNames(node.targets)
  }

  /** `node` reads the name `x`. */
  predicate Discards(node: Node, x: string) {
    node == Name(x, Load)
  }

  /** Some assignment to `x` in the walk is followed by no read of `x`:
      the last event for `x` is an assignment. */
  ghost predicate LastEventIsAdd(walk: seq<Node>, x: string) {
    exists i :: 0 <= i < |walk| && Adds(walk[i], x) && NotReadAfter(walk, x, i)
  }

  ghost predicate NotReadAfter(walk: seq<Node>, x: string, i: int) {
    forall j :: 0 <= j < |walk| && i < j ==> !Discards(walk[j], x)
  }

  lemma VisitEvent(vars: set<string>, node: Node, x: string)
    ensures x in Visit(vars, node) <==> Adds(node, x) || (x in vars && !Discards(node, x))
  {
  }

  lemma LastEventCons(node: Node, rest: seq<Node>, x: string)
    ensures LastEventIsAdd([node] + rest, x) <==>
      LastEventIsAdd(rest, x) || (Adds(node, x) && NotReadAfter(rest, x, -1))
  {
    var walk := [node] + rest;
    if LastEventIsAdd(walk, x) {
      var i :| 0 <= i < |walk| && Adds(walk[i], x) && NotReadAfter(walk, x, i);
      if i > 0 {
        assert Adds(rest[i - 1], x);
        assert NotReadAfter(rest, x, i - 1) by {
          forall j | i - 1 < j < |rest|
            ensures !Discards(rest[j], x)
          {
            assert rest[j] == walk[j + 1];
          }
        }
      } else {
        assert NotReadAfter(rest, x, -1) by {
          forall j | -1 < j < |rest|
            ensures !Discards(rest[j], x)
          {
            assert rest[j] == walk[j + 1];
          }
        }
      }
    }
    if LastEventIsAdd(rest, x) {
      var i :| 0 <= i < |rest| && Adds(rest[i], x) && NotReadAfter(rest, x, i);
      assert walk[i + 1] == rest[i];
      assert NotReadAfter(walk, x, i + 1);
    }
    if Adds(node, x) && NotReadAfter(rest, x, -1) {
      assert walk[0] == node;
      assert NotReadAfter(walk, x, 0);
    }
  }

  /** What the pass keeps, from any starting set: a name whose last event in
      the walk is an assignment, or a name it started with that the walk
      never reads. */
  lemma {:induction false} ScanLastEvent(vars: set<string>, walk: seq<Node>, x: string)
    ensures x in Scan(vars, walk) <==>
      LastEventIsAdd(walk, x) || (x in vars && NotReadAfter(walk, x, -1))
    decreases |walk|
  {
    if walk == [] {
    } else {
      var node, rest := walk[0], walk[1..];
      assert walk == [node] + rest;
      ScanLastEvent(Visit(vars, node), rest, x);
      VisitEvent(vars, node, x);
      LastEventCons(node, rest, x);
      assert NotReadAfter(walk, x, -1) <==> !Discards(node, x) && NotReadAfter(rest, x, -1) by {
        if !Discards(node, x) && NotReadAfter(rest, x, -1) {
          forall j | -1 < j < |walk|
            ensures !Discards(walk[j], x)
          {
            if j > 0 {
              assert walk[j] == rest[j - 1];
            }
          }
        }
        if NotReadAfter(walk, x, -1) {
          assert walk[0] == node;
          forall j | -1 < j < |rest|
            ensures !Discards(rest[j], x)
          {
            assert rest[j] == walk[j + 1];
          }
        }
      }
    }
  }

  /** A name is reported as never used exactly when its last event in walk
      order is an assignment: a read visited before the assignment does not
      count, and every reported name is assigned somewhere. */
  lemma UnusedNamesLastEvent(walk: seq<Node>, x: string)
    ensures x in UnusedNames(walk) <==> LastEventIsAdd(walk, x)
  {
    ScanLastEvent({}, walk, x);
  }

  lemma TargetNamesSingle(x: string)
    ensures TargetNames([NameTarget(x)]) == {x}
  {
    assert [NameTarget(x)][0].NameTarget?;
  }

  /** Scanning a walk in two pieces is scanning the whole walk. */
  lemma {:induction false} ScanAppend(vars: set<string>, a: seq<Node>, b: seq<Node>)
    ensures Scan(vars, a + b) == Scan(Scan(vars, a), b)
    decreases |a|
  {
    if a == [] {
      assert a + b == b;
    } else {
      assert (a + b)[0] == a[0] && (a + b)[1..] == a[1..] + b;
      ScanAppend(Visit(vars, a[0]), a[1..], b);
    }
  }

  // In the walks below, the nodes the pass ignores (the module, statements,
  // constants, calls and the `Load`/`Store` context objects that `ast.walk`
  // also yields) are `OtherNode`.

  /** `x = 1`: the name is reported. */
  lemma UnusedWhenNeverRead()
    ensures UnusedNames([OtherNode, Assign([NameTarget("x")]), Name("x", Store), OtherNode, OtherNode]) == {"x"}
  {
    TargetNamesSingle("x");
  }

  /** `x = 1` then `print(x)`: the read after the assignment uses the name. */
  lemma UsedWhenReadAfter()
    ensures UnusedNames([OtherNode, Assign([NameTarget("x")]), OtherNode, Name("x", Store), OtherNode,
                         OtherNode, OtherNode, Name("print", Load), Name("x", Load), OtherNode, OtherNode]) == {}
  {
    TargetNamesSingle("x");
    var a := [OtherNode, Assign([NameTarget("x")]), OtherNode, Name("x", Store), OtherNode];
    var b := [OtherNode, OtherNode, Name("print", Load), Name("x", Load), OtherNode, OtherNode];
    ScanAppend({}, a, b);
    assert Scan({}, a) == {"x"};
  }

  /** `if a:` / `if b:` / `x = 1`, then the statement `x` at the top
      level. Breadth-first, the read of `x` is visited before the deeper
      assignment, so the name is reported although the code uses it. */
  lemma UnusedWhenReadBefore()
    ensures UnusedNames([OtherNode, OtherNode, OtherNode, Name("a", Load), OtherNode, Name("x", Load),
                         OtherNode, Name("b", Load), Assign([NameTarget("x")]), OtherNode, OtherNode,
                         Name("x", Store), OtherNode, OtherNode]) == {"x"}
  {
    TargetNamesSingle("x");
    var a1 := [OtherNode, OtherNode, OtherNode, Name("a", Load)];
    var a2 := [OtherNode, Name("x", Load), OtherNode];
    var b1 := [Name("b", Load), Assign([NameTarget("x")]), OtherNode];
    var b2 := [OtherNode, Name("x", Store), OtherNode, OtherNode];
    assert a1 + a2 + (b1 + b2) == [OtherNode, OtherNode, OtherNode, Name("a", Load), OtherNode, Name("x", Load),
                         OtherNode, Name("b", Load), Assign([NameTarget("x")]), OtherNode, OtherNode,
                         Name("x", Store), OtherNode, OtherNode];
    ScanAppend({}, a1 + a2, b1 + b2);
    ScanAppend({}, a1, a2);
    ScanAppend({}, b1, b2);
    assert Scan({}, a1) == {};
    assert Scan({}, a2) == {};
    assert Scan({}, b1) == {"x"};
    assert Scan({"x"}, b2) == {"x"};
  }

  // ---------------------------------------------------------- the analysis

  /** The walk holds a `global` statement. */
  ghost predicate HasGlobal(walk: seq<Node>) {
    exists i :: 0 <= i < |walk| && walk[i].Global?
  }

  /** The unused-variable loop over the walk: a plain-name assignment
      target is added, a read discards the name. */
  method UnusedPass(walk: seq<Node>) returns (variables: set<string>)
    ensures variables == UnusedNames(walk)
  {
    variables := {};
    var k := 0;
    assert walk[0..] == walk;
    while k < |walk|
      invariant 0 <= k <= |walk|
      invariant Scan(variables, walk[k..]) == UnusedNames(walk)
    {
      var node := walk[k];
      assert walk[k..] == [node] + walk[k + 1..];
      if node.Assign? {
        variables := variables + TargetNames(node.targets);
      } else if node.Name? && node.ctx == Load {
        variables := variables - {node.id};
      }
      k := k + 1;
    }
  }

  /** The `any(isinstance(node, ast.Global) ...)` scan, stopping at the first
      `global` statement. */
  method AnyGlobal(walk: seq<Node>) returns (found: bool)
    ensures found <==> HasGlobal(walk)
  {
    found := false;
    var k := 0;
    while k < |walk| && !found
      invariant 0 <= k <= |walk|
      invariant found <==> exists i :: 0 <= i < k && walk[i].Global?
    {
      found := walk[k].Global?;
      k := k + 1;
    }
  }

  /** `analyze_code(code, knowledge_base)`, with the parse of `code` given.

      A syntax error is recorded, then turns the unused-variable pass into an
      "advanced analysis" error entry; with the globals rule switched on the
      unguarded third parse lets the syntax error escape. A parser failure
      other than a syntax error escapes from the first parse. */
  method AnalyzeCode(parse: ParseOutcome, knowledgeBase: string) returns (out: Outcome)
    ensures parse.OtherParseError? ==> out == Raised(parse.message)
    ensures parse.SyntaxError? && Triggered(knowledgeBase) ==> out == Raised(parse.message)
    ensures parse.SyntaxError? && !Triggered(knowledgeBase) ==>
      out == Returned(Analysis([parse.message], [AdvancedAnalysisError(parse.message)]))
    ensures parse.Parsed? ==> out.Returned? && out.analysis.syntaxErrors == []
    ensures parse.Parsed? ==> (out.analysis.improvements ==
      (if UnusedNames(parse.walk) == {} then [] else [UnusedVariables(UnusedNames(parse.walk))]) +
      (if Triggered(knowledgeBase) && HasGlobal(parse.walk) then [AvoidGlobals] else []))
  {
    var syntaxErrors: seq<string> := [];
    var improvements: seq<Improvement> := [];

    // First parse: only a syntax error is caught.
    match parse {
      case OtherParseError(message) =>
        return Raised(message);
      case SyntaxError(message) =>
        syntaxErrors := syntaxErrors + [message];
      case Parsed(_) =>
    }

    // Second parse and the unused-variable pass, under a catch-all.
    if parse.Parsed? {
      var variables := UnusedPass(parse.walk);
      if variables != {} {
        improvements := improvements + [UnusedVariables(variables)];
      }
    } else {
      improvements := improvements + [AdvancedAnalysisError(parse.message)];
    }

    // Third parse, unguarded, only when the knowledge base asks for it.
    if Triggered(knowledgeBase) {
      if !parse.Parsed? {
        return Raised(parse.message);
      }
      var found := AnyGlobal(parse.walk);
      if found {
        improvements := improvements + [AvoidGlobals];
      }
    }
    return Returned(Analysis(syntaxErrors, improvements));
  }
}
