// Statement and declaration binding. The binder owns a current scope that
// blocks and for loops replace by a fresh child scope and then restore, and
// a diagnostic bag that binding appends to.
module CocoaBinder {
  import opened Wrappers
  import opened TextSpans
  import opened CocoaSyntax
  import opened CocoaSymbols
  import opened CocoaDiagnostics
  import opened BoundTree
  import opened CocoaScope
  import opened CocoaExpressionBinder

  /** The table that declaring the variables in order builds: a name that is
      already there is skipped. */
  function DeclaredVariables(items: seq<VariableSymbol>): (r: seq<VariableSymbol>)
    ensures DistinctVariables(r)
  {
    if items == [] then []
    else
      var prev := DeclaredVariables(items[..|items| - 1]);
      var v := items[|items| - 1];
      if VariableNamed(prev, v.name).None? then
        assert forall i :: 0 <= i < |prev| ==> prev[i].name != v.name;
        prev + [v]
      else prev
  }

  function DeclaredFunctions(items: seq<FunctionSymbol>): (r: seq<FunctionSymbol>)
    ensures DistinctFunctions(r)
  {
    if items == [] then []
    else
      var prev := DeclaredFunctions(items[..|items| - 1]);
      var f := items[|items| - 1];
      if FunctionNamed(prev, f.name).None? then
        assert forall i :: 0 <= i < |prev| ==> prev[i].name != f.name;
        prev + [f]
      else prev
  }

  /** Declaring variables with distinct names keeps all of them, in order. */
  lemma {:induction false} DeclaredDistinctVariables(items: seq<VariableSymbol>)
    requires DistinctVariables(items)
    ensures DeclaredVariables(items) == items
  {
    if items != [] {
      var init := items[..|items| - 1];
      DeclaredDistinctVariables(init);
      var v := items[|items| - 1];
      assert forall i :: 0 <= i < |init| ==> init[i].name != v.name;
      assert items == init + [v];
    }
  }

  lemma {:induction false} DeclaredDistinctFunctions(items: seq<FunctionSymbol>)
    requires DistinctFunctions(items)
    ensures DeclaredFunctions(items) == items
  {
    if items != [] {
      var init := items[..|items| - 1];
      DeclaredDistinctFunctions(init);
      var f := items[|items| - 1];
      assert forall i :: 0 <= i < |init| ==> init[i].name != f.name;
      assert items == init + [f];
    }
  }

  /** The type a type clause names; no clause, or an unknown name, gives none. */
  function DeclaredType(clause: Option<TypeClause>): Option<TypeSymbol>
  {
    if clause.None? || clause.value.identifier.text.None? then None
    else LookupType(clause.value.identifier.text.value)
  }

  /** BindTypeClause reports an unknown type name at the clause's identifier. */
  function TypeClauseDiagnostics(clause: Option<TypeClause>): (r: seq<Diagnostic>)
    ensures |r| <= 1
    ensures |r| == 1 <==> clause.Some? && DeclaredType(clause).None?
  {
    if clause.Some? && DeclaredType(clause).None?
    then [Diagnostic(clause.value.identifier.Span(), UndefinedType(clause.value.identifier.text))]
    else []
  }

  function TypeClauseSpan(clause: TypeClause): TextSpan
  {
    FromBounds(clause.colonToken.Span().start, clause.identifier.Span().End())
  }

  function ParameterName(p: ParameterSyntax): string
  {
    p.identifier.text.value
  }

  /** The parameters a function declaration keeps: the first of each name.
      Each later one with a name already seen is reported and dropped. */
  datatype ParameterBinding = ParameterBinding(kept: seq<ParameterSyntax>, seen: set<string>, diagnostics: seq<Diagnostic>)

  function BindParameters(ps: seq<ParameterSyntax>): ParameterBinding
  {
    if ps == [] then ParameterBinding([], {}, [])
    else
      var prev := BindParameters(ps[..|ps| - 1]);
      var p := ps[|ps| - 1];
      var name := ParameterName(p);
      var typeDiagnostics := TypeClauseDiagnostics(Some(p.typeClause));
      if name in prev.seen then
        ParameterBinding(prev.kept, prev.seen, prev.diagnostics + typeDiagnostics + [Diagnostic(p.Span(), ParameterAlreadyDeclared(name))])
      else
        ParameterBinding(prev.kept + [p], prev.seen + {name}, prev.diagnostics + typeDiagnostics)
  }

  /** The kept parameters have distinct names and every parameter's name is
      among them; the names seen are exactly the kept ones' names, and every
      kept parameter is one of the input's. */
  lemma BindParametersKeepsFirst(ps: seq<ParameterSyntax>)
    ensures var r := BindParameters(ps);
      (forall n :: n in r.seen <==> exists i :: 0 <= i < |r.kept| && ParameterName(r.kept[i]) == n)
      && (forall i :: 0 <= i < |ps| ==> ParameterName(ps[i]) in r.seen)
      && (forall i, j :: 0 <= i < j < |r.kept| ==> ParameterName(r.kept[i]) != ParameterName(r.kept[j]))
      && (forall i :: 0 <= i < |r.kept| ==> r.kept[i] in ps)
  {
    SeenAreKeptNames(ps);
    EveryNameSeen(ps);
    KeptNamesDistinct(ps);
    KeptAreGiven(ps);
  }

  lemma {:induction false} SeenAreKeptNames(ps: seq<ParameterSyntax>)
    ensures forall n :: n in BindParameters(ps).seen <==>
      exists i :: 0 <= i < |BindParameters(ps).kept| && ParameterName(BindParameters(ps).kept[i]) == n
  {
    if ps != [] {
      var init := ps[..|ps| - 1];
      SeenAreKeptNames(init);
      var prev := BindParameters(init);
      var p := ps[|ps| - 1];
      if ParameterName(p) !in prev.seen {
        var kept := prev.kept + [p];
        var seen := prev.seen + {ParameterName(p)};
        assert BindParameters(ps).kept == kept && BindParameters(ps).seen == seen;
        forall n | n in seen ensures exists i :: 0 <= i < |kept| && ParameterName(kept[i]) == n {
          if n == ParameterName(p) {
            assert ParameterName(kept[|prev.kept|]) == n;
          } else {
            var i :| 0 <= i < |prev.kept| && ParameterName(prev.kept[i]) == n;
            assert kept[i] == prev.kept[i];
          }
        }
        forall i | 0 <= i < |kept| ensures ParameterName(kept[i]) in seen {
          if i < |prev.kept| {
            assert kept[i] == prev.kept[i];
          }
        }
      }
    }
  }

  lemma {:induction false} EveryNameSeen(ps: seq<ParameterSyntax>)
    ensures forall i :: 0 <= i < |ps| ==> ParameterName(ps[i]) in BindParameters(ps).seen
  {
    if ps != [] {
      var init := ps[..|ps| - 1];
      EveryNameSeen(init);
      assert forall i :: 0 <= i < |init| ==> init[i] == ps[i];
    }
  }

  lemma {:induction false} KeptNamesDistinct(ps: seq<ParameterSyntax>)
    ensures forall i, j :: 0 <= i < j < |BindParameters(ps).kept| ==>
      ParameterName(BindParameters(ps).kept[i]) != ParameterName(BindParameters(ps).kept[j])
  {
    if ps != [] {
      var init := ps[..|ps| - 1];
      KeptNamesDistinct(init);
      SeenAreKeptNames(init);
      var prev := BindParameters(init);
      var p := ps[|ps| - 1];
      if ParameterName(p) !in prev.seen {
        var kept := prev.kept + [p];
        assert BindParameters(ps).kept == kept;
        forall i, j | 0 <= i < j < |kept| ensures ParameterName(kept[i]) != ParameterName(kept[j]) {
          assert kept[i] == prev.kept[i];
          if j < |prev.kept| {
            assert kept[j] == prev.kept[j];
          } else {
            assert ParameterName(prev.kept[i]) in prev.seen;
          }
        }
      }
    }
  }

  lemma {:induction false} KeptAreGiven(ps: seq<ParameterSyntax>)
    ensures forall i :: 0 <= i < |BindParameters(ps).kept| ==> BindParameters(ps).kept[i] in ps
  {
    if ps != [] {
      var init := ps[..|ps| - 1];
      KeptAreGiven(init);
      var prev := BindParameters(init);
      var p := ps[|ps| - 1];
      assert ps == init + [p];
      forall i | 0 <= i < |prev.kept| ensures prev.kept[i] in ps {
        assert prev.kept[i] in init;
      }
      if ParameterName(p) !in prev.seen {
        var kept := prev.kept + [p];
        assert BindParameters(ps).kept == kept;
        forall i | 0 <= i < |kept| ensures kept[i] in ps {
          if i < |prev.kept| {
            assert kept[i] == prev.kept[i];
          }
        }
      }
    }
  }

  /** The symbol BindVariable creates for an identifier. */
  predicate SymbolFor(v: VariableSymbol, identifier: SyntaxToken, isReadOnly: bool, global: bool)
  {
    v.name == identifier.text.GetOr("?") && v.isReadOnly == isReadOnly
    && v.kind == (if global then GlobalVariable else LocalVariable)
  }

  /** Each statement binds to the bound statement of its own kind, with its
      nested statements bound in the same way and the declared variables
      built by BindVariable. */
  predicate Shaped(s: StatementSyntax, r: BoundStatement, global: bool)
    decreases s
  {
    match s
    case BlockStatement(_, ss, _) =>
      r.BlockStatement? && |r.statements| == |ss|
      && forall i :: 0 <= i < |ss| ==> Shaped(ss[i], r.statements[i], global)
    case VariableDeclaration(keyword, identifier, _, _, _) =>
      r.VariableDeclaration? && SymbolFor(r.variable, identifier, keyword.kind == LetKeyword, global)
    case IfStatement(_, _, thenStatement, elseClause) =>
      r.IfStatement? && Shaped(thenStatement, r.thenStatement, global)
      && r.elseStatement.Some? == elseClause.Some?
      && (elseClause.Some? ==> Shaped(elseClause.value.elseStatement, r.elseStatement.value, global))
    case WhileStatement(_, _, body) => r.WhileStatement? && Shaped(body, r.body, global)
    case DoWhileStatement(_, body, _, _) => r.DoWhileStatement? && Shaped(body, r.body, global)
    case ForStatement(_, identifier, _, _, _, _, body) =>
      r.ForStatement? && SymbolFor(r.variable, identifier, true, global) && r.variable.typeSymbol == IntType
      && Shaped(body, r.body, global)
    case ExpressionStatement(_) => r.ExpressionStatement?
  }

  /** The global statements of a compilation unit, in order. */
  function GlobalStatements(members: seq<MemberSyntax>): (r: seq<StatementSyntax>)
    ensures |r| <= |members|
  {
    if members == [] then []
    else
      var last := members[|members| - 1];
      GlobalStatements(members[..|members| - 1]) + if last.GlobalStatement? then [last.statement] else []
  }

  /** The names a statement declares in the scope it is bound in: a
      variable declaration's, unless its identifier is missing, and those of
      the statements an if, while or do-while holds directly. Blocks and for
      loops declare theirs in scopes of their own. */
  function ScopeNames(s: StatementSyntax): set<string>
  {
    match s
    case VariableDeclaration(_, identifier, _, _, _) => if identifier.IsMissing() then {} else {identifier.text.value}
    case IfStatement(_, _, thenStatement, elseClause) =>
      ScopeNames(thenStatement) + if elseClause.Some? then ScopeNames(elseClause.value.elseStatement) else {}
    case WhileStatement(_, _, body) => ScopeNames(body)
    case DoWhileStatement(_, body, _, _) => ScopeNames(body)
    case _ => {}
  }

  /** The names the global statements of a submission declare in its scope. */
  function GlobalNames(members: seq<MemberSyntax>): set<string>
  {
    if members == [] then {}
    else
      var last := members[|members| - 1];
      GlobalNames(members[..|members| - 1]) + if last.GlobalStatement? then ScopeNames(last.statement) else {}
  }

  function VariableNames(vs: seq<VariableSymbol>): set<string>
  {
    set k | 0 <= k < |vs| :: vs[k].name
  }

  function FunctionNames(fs: seq<FunctionSymbol>): set<string>
  {
    set k | 0 <= k < |fs| :: fs[k].name
  }

  function DeclarationNames(ds: seq<FunctionDeclarationSyntax>): set<string>
  {
    set k | 0 <= k < |ds| :: ds[k].identifier.text.value
  }

  /** The function declarations BindGlobalScope's first loop declares, in
      member order: each function member whose name neither `taken` nor an
      earlier declared one has. */
  function KeptFunctionMembers(members: seq<MemberSyntax>, taken: set<string>): seq<FunctionDeclarationSyntax>
  {
    if members == [] then []
    else
      var kept := KeptFunctionMembers(members[..|members| - 1], taken);
      var last := members[|members| - 1];
      if last.FunctionMember? && last.declaration.identifier.text.value !in taken + DeclarationNames(kept)
      then kept + [last.declaration] else kept
  }

  /** The declared functions are function members of their own names, none
      taken before and no two alike, and every function member's name ends
      up taken or declared. */
  lemma {:induction false} KeptFunctionMembersMeaning(members: seq<MemberSyntax>, taken: set<string>)
    ensures var kept := KeptFunctionMembers(members, taken);
      && (forall k :: 0 <= k < |kept| ==> kept[k].identifier.text.value !in taken)
      && (forall k, l :: 0 <= k < l < |kept| ==> kept[k].identifier.text.value != kept[l].identifier.text.value)
      && (forall k :: 0 <= k < |kept| ==> exists i :: 0 <= i < |members| && members[i] == FunctionMember(kept[k]))
      && (forall i :: 0 <= i < |members| && members[i].FunctionMember? ==>
            members[i].declaration.identifier.text.value in taken + DeclarationNames(kept))
  {
    if members != [] {
      var prefix := members[..|members| - 1];
      var last := members[|members| - 1];
      var before := KeptFunctionMembers(prefix, taken);
      var kept := KeptFunctionMembers(members, taken);
      KeptFunctionMembersMeaning(prefix, taken);
      forall k | 0 <= k < |kept| ensures exists i :: 0 <= i < |members| && members[i] == FunctionMember(kept[k]) {
        if k < |before| {
          var i :| 0 <= i < |prefix| && prefix[i] == FunctionMember(before[k]);
          assert members[i] == prefix[i];
        } else {
          assert members[|members| - 1] == FunctionMember(kept[k]);
        }
      }
      assert DeclarationNames(before) <= DeclarationNames(kept) by {
        forall n | n in DeclarationNames(before) ensures n in DeclarationNames(kept) {
          var k :| 0 <= k < |before| && before[k].identifier.text.value == n;
          assert kept[k] == before[k];
        }
      }
      forall i | 0 <= i < |members| && members[i].FunctionMember?
        ensures members[i].declaration.identifier.text.value in taken + DeclarationNames(kept)
      {
        if i < |prefix| {
          assert members[i] == prefix[i];
        } else if kept != before {
          assert kept[|before|].identifier.text.value == members[i].declaration.identifier.text.value;
        }
      }
      forall k, l | 0 <= k < l < |kept| ensures kept[k].identifier.text.value != kept[l].identifier.text.value {
        if l == |before| {
          assert kept[k].identifier.text.value in DeclarationNames(before);
        }
      }
    }
  }

  lemma VariableNamesAppend(vs: seq<VariableSymbol>, v: VariableSymbol)
    ensures VariableNames(vs + [v]) == VariableNames(vs) + {v.name}
  {
    assert (vs + [v])[|vs|] == v;
    forall n | n in VariableNames(vs) ensures n in VariableNames(vs + [v]) {
      var k :| 0 <= k < |vs| && vs[k].name == n;
      assert (vs + [v])[k] == vs[k];
    }
  }

  lemma VariableNamesFound(vs: seq<VariableSymbol>, n: string)
    ensures VariableNamed(vs, n).Some? <==> n in VariableNames(vs)
  {
    if n in VariableNames(vs) {
      var k :| 0 <= k < |vs| && vs[k].name == n;
    }
  }

  lemma FunctionNamesAppend(fs: seq<FunctionSymbol>, f: FunctionSymbol)
    ensures FunctionNames(fs + [f]) == FunctionNames(fs) + {f.name}
  {
    assert (fs + [f])[|fs|] == f;
    forall n | n in FunctionNames(fs) ensures n in FunctionNames(fs + [f]) {
      var k :| 0 <= k < |fs| && fs[k].name == n;
      assert (fs + [f])[k] == fs[k];
    }
  }

  lemma FunctionNamesFound(fs: seq<FunctionSymbol>, n: string)
    ensures FunctionNamed(fs, n).Some? <==> n in FunctionNames(fs)
  {
    if n in FunctionNames(fs) {
      var k :| 0 <= k < |fs| && fs[k].name == n;
    }
  }

  lemma DeclarationNamesAppend(ds: seq<FunctionDeclarationSyntax>, d: FunctionDeclarationSyntax)
    ensures DeclarationNames(ds + [d]) == DeclarationNames(ds) + {d.identifier.text.value}
  {
    assert (ds + [d])[|ds|] == d;
    forall n | n in DeclarationNames(ds) ensures n in DeclarationNames(ds + [d]) {
      var k :| 0 <= k < |ds| && ds[k].identifier.text.value == n;
      assert (ds + [d])[k] == ds[k];
    }
  }

  /** The result of binding one submission; `previous` is the submission
      before it. */
  datatype BoundGlobalScope = BoundGlobalScope(
    previous: Option<BoundGlobalScope>, diagnostics: seq<Diagnostic>,
    functions: seq<FunctionSymbol>, variables: seq<VariableSymbol>, statements: seq<BoundStatement>)

  /** The submissions from the given one back to the first. */
  function Ancestors(g: Option<BoundGlobalScope>): (r: seq<BoundGlobalScope>)
    ensures g.None? <==> r == []
  {
    if g.None? then [] else [g.value] + Ancestors(g.value.previous)
  }

  /** The table CreateParentScopes builds for one submission. */
  function SubmissionTable(g: BoundGlobalScope): Table
  {
    Table(DeclaredVariables(g.variables), DeclaredFunctions(g.functions))
  }

  function SubmissionTables(gs: seq<BoundGlobalScope>): seq<Table>
  {
    if gs == [] then [] else [SubmissionTable(gs[0])] + SubmissionTables(gs[1..])
  }

  lemma SubmissionTablesStep(gs: seq<BoundGlobalScope>, k: nat)
    requires k < |gs|
    ensures SubmissionTables(gs[k..]) == [SubmissionTable(gs[k])] + SubmissionTables(gs[k + 1..])
  {
    assert gs[k..][1..] == gs[k + 1..];
  }

  lemma {:induction false} SubmissionTablesIndex(gs: seq<BoundGlobalScope>, k: nat)
    requires k < |gs|
    ensures |SubmissionTables(gs)| == |gs| && SubmissionTables(gs)[k] == SubmissionTable(gs[k])
  {
    if k > 0 {
      SubmissionTablesIndex(gs[1..], k - 1);
    } else if |gs| > 1 {
      SubmissionTablesIndex(gs[1..], 0);
    }
  }

  /** Declaring variables in turn keeps one of each name. */
  lemma {:induction false} DeclaredVariablesNames(vs: seq<VariableSymbol>)
    ensures VariableNames(DeclaredVariables(vs)) == VariableNames(vs)
  {
    if vs != [] {
      var prefix := vs[..|vs| - 1];
      var v := vs[|vs| - 1];
      assert vs == prefix + [v];
      DeclaredVariablesNames(prefix);
      VariableNamesFound(DeclaredVariables(prefix), v.name);
      VariableNamesAppend(DeclaredVariables(prefix), v);
      VariableNamesAppend(prefix, v);
    }
  }

  /** A variable name that any earlier submission declared is found through
      the scopes CreateParentScopes builds for the next one, in that
      submission's table or a later one's. */
  lemma EarlierVariableVisible(previous: Option<BoundGlobalScope>, builtins: Builtins, k: nat, name: string)
    requires k < |Ancestors(previous)| && name in VariableNames(Ancestors(previous)[k].variables)
    ensures LookUpVariable(SubmissionTables(Ancestors(previous)) + [RootTable(builtins)], name).Some?
  {
    var gs := Ancestors(previous);
    var chain := SubmissionTables(gs) + [RootTable(builtins)];
    SubmissionTablesIndex(gs, k);
    assert chain[k] == SubmissionTable(gs[k]);
    DeclaredVariablesNames(gs[k].variables);
    VariableNamesFound(chain[k].variables, name);
  }

  function RootTable(builtins: Builtins): Table
  {
    Table([], DeclaredFunctions(builtins.All()))
  }

  /** CreateRootScope: a scope with no parent holding the built-in functions. */
  method CreateRootScope(builtins: Builtins) returns (s: BoundScope)
    ensures fresh(s) && s.Valid() && s.Distinct() && s.parent.None?
    ensures s.Chain() == [RootTable(builtins)]
  {
    s := new BoundScope(None);
    DeclareAllFunctions(s, builtins.All());
  }

  /** TryDeclare for each function in turn, into an empty function table. */
  method DeclareAllFunctions(scope: BoundScope, fs: seq<FunctionSymbol>)
    requires scope.Valid() && scope.Distinct() && scope.functions == []
    modifies scope
    ensures scope.Valid() && scope.Distinct()
    ensures scope.variables == old(scope.variables) && scope.functions == DeclaredFunctions(fs)
  {
    var i := 0;
    while i < |fs|
      invariant 0 <= i <= |fs|
      invariant scope.Valid() && scope.Distinct() && scope.variables == old(scope.variables)
      invariant scope.functions == DeclaredFunctions(fs[..i])
    {
      assert fs[..i + 1][..i] == fs[..i];
      var _ := scope.TryDeclareFunction(fs[i]);
      i := i + 1;
    }
    assert fs[..i] == fs;
  }

  /** TryDeclare for each variable in turn, into an empty variable table. */
  method DeclareAllVariables(scope: BoundScope, vs: seq<VariableSymbol>)
    requires scope.Valid() && scope.Distinct() && scope.variables == []
    modifies scope
    ensures scope.Valid() && scope.Distinct()
    ensures scope.functions == old(scope.functions) && scope.variables == DeclaredVariables(vs)
  {
    var i := 0;
    while i < |vs|
      invariant 0 <= i <= |vs|
      invariant scope.Valid() && scope.Distinct() && scope.functions == old(scope.functions)
      invariant scope.variables == DeclaredVariables(vs[..i])
    {
      assert vs[..i + 1][..i] == vs[..i];
      var _ := scope.TryDeclareVariable(vs[i]);
      i := i + 1;
    }
    assert vs[..i] == vs;
  }

  /** One step of CreateParentScopes: a scope under `parent` holding a
      submission's functions and variables. */
  method DeclareSubmission(parent: BoundScope, g: BoundGlobalScope) returns (scope: BoundScope)
    requires parent.Valid()
    ensures fresh(scope) && scope.Valid() && scope.Distinct() && scope.parent == Some(parent)
    ensures scope.Chain() == [SubmissionTable(g)] + parent.Chain()
  {
    scope := new BoundScope(Some(parent));
    DeclareAllFunctions(scope, g.functions);
    DeclareAllVariables(scope, g.variables);
  }

  /** The first loop of CreateParentScopes: the stack of earlier
      submissions, the first one on top. */
  method CollectSubmissions(previous: Option<BoundGlobalScope>) returns (stack: seq<BoundGlobalScope>)
    ensures stack == Ancestors(previous)
  {
    stack := [];
    var p := previous;
    while p.Some?
      invariant stack + Ancestors(p) == Ancestors(previous)
      decreases p
    {
      stack := stack + [p.value];
      p := p.value.previous;
    }
  }

  /** CreateParentScopes: one scope per earlier submission, the first
      submission's outermost, on top of the root scope. */
  method CreateParentScopes(previous: Option<BoundGlobalScope>, builtins: Builtins) returns (parent: BoundScope)
    ensures parent.Valid() && parent.Distinct()
    ensures parent.Chain() == SubmissionTables(Ancestors(previous)) + [RootTable(builtins)]
  {
    var stack := CollectSubmissions(previous);
    parent := CreateRootScope(builtins);
    // Popping the stack: the submissions below `top` are still on it.
    var top := |stack|;
    while top > 0
      invariant 0 <= top <= |stack|
      invariant parent.Valid() && parent.Distinct()
      invariant parent.Chain() == SubmissionTables(stack[top..]) + [RootTable(builtins)]
    {
      top := top - 1;
      parent := PushSubmission(parent, stack, top, builtins);
    }
  }

  /** A turn of CreateParentScopes' second loop: the submission popped
      from the stack gets its scope on top of the ones below it. */
  method PushSubmission(parent: BoundScope, stack: seq<BoundGlobalScope>, top: nat, builtins: Builtins) returns (scope: BoundScope)
    requires top < |stack| && parent.Valid() && parent.Distinct()
    requires parent.Chain() == SubmissionTables(stack[top + 1..]) + [RootTable(builtins)]
    ensures scope.Valid() && scope.Distinct()
    ensures scope.Chain() == SubmissionTables(stack[top..]) + [RootTable(builtins)]
  {
    SubmissionTablesStep(stack, top);
    ghost var below := SubmissionTables(stack[top + 1..]);
    assert [SubmissionTable(stack[top])] + (below + [RootTable(builtins)]) == SubmissionTables(stack[top..]) + [RootTable(builtins)];
    scope := DeclareSubmission(parent, stack[top]);
  }

  class Binder {
    var scope: BoundScope
    var diagnostics: seq<Diagnostic>
    /** The function whose body is being bound, if any. */
    const enclosing: Option<FunctionSymbol>
    const classify: Classifier

    ghost predicate Valid()
      reads this, scope
    {
      scope.Valid() && scope.Distinct() && this !in scope.Repr
      && (enclosing.None? ==> forall i :: 0 <= i < |scope.variables| ==> scope.variables[i].kind == GlobalVariable)
    }

    /** What expression binding sees from the current scope. */
    function Env(): BindEnv
      requires scope.Valid()
      reads this, scope.Repr
    {
      BindEnv(scope.Chain(), classify)
    }

    /** A binder over a fresh scope under `parent`, holding the enclosing
        function's parameters. */
    constructor (parent: Option<BoundScope>, enclosing: Option<FunctionSymbol>, classify: Classifier)
      requires parent.Some? ==> parent.value.Valid()
      ensures Valid() && fresh(scope) && scope.parent == parent
      ensures this.enclosing == enclosing && this.classify == classify && diagnostics == []
      ensures scope.functions == []
      ensures scope.variables == if enclosing.Some? then DeclaredVariables(enclosing.value.parameters) else []
    {
      var s := new BoundScope(parent);
      this.enclosing := enclosing;
      this.classify := classify;
      scope := s;
      diagnostics := [];
      new;
      if enclosing.Some? {
        var ps := enclosing.value.parameters;
        var i := 0;
        while i < |ps|
          invariant 0 <= i <= |ps|
          invariant scope == s && s.Valid() && s.Distinct() && s.functions == [] && diagnostics == []
          invariant s.variables == DeclaredVariables(ps[..i])
        {
          assert ps[..i + 1][..i] == ps[..i];
          var _ := s.TryDeclareVariable(ps[i]);
          i := i + 1;
        }
        assert ps[..i] == ps;
      }
    }

    /** Binds an expression in the current scope, appending its diagnostics. */
    method BindExpression(e: ExpressionSyntax, canBeVoid: bool) returns (r: BoundExpression)
      requires Valid()
      modifies this
      ensures Valid() && scope == old(scope)
      ensures r == CocoaExpressionBinder.BindExpression(old(Env()), e, canBeVoid).expression
      ensures diagnostics == old(diagnostics) + CocoaExpressionBinder.BindExpression(old(Env()), e, canBeVoid).diagnostics
    {
      var b := CocoaExpressionBinder.BindExpression(Env(), e, canBeVoid);
      diagnostics := diagnostics + b.diagnostics;
      r := b.expression;
    }

    method BindExpressionTo(e: ExpressionSyntax, target: TypeSymbol) returns (r: BoundExpression)
      requires Valid()
      modifies this
      ensures Valid() && scope == old(scope)
      ensures r == CocoaExpressionBinder.BindExpressionTo(old(Env()), e, target).expression
      ensures diagnostics == old(diagnostics) + CocoaExpressionBinder.BindExpressionTo(old(Env()), e, target).diagnostics
    {
      var b := CocoaExpressionBinder.BindExpressionTo(Env(), e, target);
      diagnostics := diagnostics + b.diagnostics;
      r := b.expression;
    }

    method BindTypeClause(clause: Option<TypeClause>) returns (t: Option<TypeSymbol>)
      modifies this
      ensures t == DeclaredType(clause)
      ensures diagnostics == old(diagnostics) + TypeClauseDiagnostics(clause)
      ensures scope == old(scope)
    {
      t := DeclaredType(clause);
      diagnostics := diagnostics + TypeClauseDiagnostics(clause);
    }

    /** BindVariable: a symbol is always returned; it is declared unless the
        identifier is missing, and a name this scope already has is reported. */
    method BindVariable(identifier: SyntaxToken, isReadOnly: bool, t: TypeSymbol) returns (v: VariableSymbol)
      requires Valid()
      modifies this, scope
      ensures Valid() && scope == old(scope) && scope.functions == old(scope.functions)
      ensures fresh(v) && SymbolFor(v, identifier, isReadOnly, enclosing.None?) && v.typeSymbol == t
      ensures scope.variables ==
        if !identifier.IsMissing() && VariableNamed(old(scope.variables), v.name).None?
        then old(scope.variables) + [v] else old(scope.variables)
      ensures diagnostics == old(diagnostics) +
        if !identifier.IsMissing() && VariableNamed(old(scope.variables), v.name).Some?
        then [Diagnostic(identifier.Span(), SymbolAlreadyDeclared(v.name))] else []
      ensures VariableNames(scope.variables) == VariableNames(old(scope.variables)) + if identifier.IsMissing() then {} else {v.name}
    {
      var name := identifier.text.GetOr("?");
      v := new VariableSymbol(name, if enclosing.None? then GlobalVariable else LocalVariable, isReadOnly, t);
      if !identifier.IsMissing() {
        VariableNamesFound(scope.variables, name);
        VariableNamesAppend(scope.variables, v);
        var ok := scope.TryDeclareVariable(v);
        if !ok {
          diagnostics := diagnostics + [Diagnostic(identifier.Span(), SymbolAlreadyDeclared(name))];
        }
      }
    }

    method BindStatement(s: StatementSyntax) returns (r: BoundStatement)
      requires Valid()
      modifies this, scope
      ensures Valid() && scope == old(scope) && scope.functions == old(scope.functions)
      ensures old(scope.variables) <= scope.variables && old(diagnostics) <= diagnostics
      ensures Shaped(s, r, enclosing.None?)
      ensures s.BlockStatement? || s.ForStatement? || s.ExpressionStatement? ==> scope.variables == old(scope.variables)
      ensures VariableNames(scope.variables) == VariableNames(old(scope.variables)) + ScopeNames(s)
      ensures forall k :: |old(scope.variables)| <= k < |scope.variables| ==> fresh(scope.variables[k])
      decreases s, 2
    {
      match s
      case BlockStatement(_, _, _) => r := BindBlockStatement(s);
      case VariableDeclaration(_, _, _, _, _) => r := BindVariableDeclaration(s);
      case IfStatement(_, _, _, _) => r := BindIfStatement(s);
      case WhileStatement(_, _, _) => r := BindWhileStatement(s);
      case DoWhileStatement(_, _, _, _) => r := BindDoWhileStatement(s);
      case ForStatement(_, _, _, _, _, _, _) => r := BindForStatement(s);
      case ExpressionStatement(e) =>
        var expression := BindExpression(e, true);
        r := BoundStatement.ExpressionStatement(expression);
    }

    /** A block binds its statements in a fresh child scope and then
        restores the scope, so its declarations do not outlive it. */
    method BindBlockStatement(s: StatementSyntax) returns (r: BoundStatement)
      requires Valid() && s.BlockStatement?
      modifies this, scope
      ensures Valid() && scope == old(scope) && unchanged(scope)
      ensures old(diagnostics) <= diagnostics
      ensures Shaped(s, r, enclosing.None?)
      decreases s, 0
    {
      var outer := scope;
      var inner := new BoundScope(Some(outer));
      scope := inner;
      var statements: seq<BoundStatement> := [];
      var i := 0;
      while i < |s.statements|
        invariant 0 <= i <= |s.statements| && |statements| == i
        invariant scope == inner && Valid() && unchanged(outer)
        invariant old(diagnostics) <= diagnostics
        invariant forall j :: 0 <= j < i ==> Shaped(s.statements[j], statements[j], enclosing.None?)
      {
        var statement := BindStatement(s.statements[i]);
        statements := statements + [statement];
        i := i + 1;
      }
      scope := outer;
      r := BoundStatement.BlockStatement(statements);
    }

    /** A `let` declares a read-only variable and `var` a writable one; the
        variable's type is the type clause's, else the initializer's, and the
        initializer is converted to it. */
    method BindVariableDeclaration(s: StatementSyntax) returns (r: BoundStatement)
      requires Valid() && s.VariableDeclaration?
      modifies this, scope
      ensures Valid() && scope == old(scope) && scope.functions == old(scope.functions)
      ensures old(scope.variables) <= scope.variables && old(diagnostics) <= diagnostics
      ensures r.VariableDeclaration? && fresh(r.variable)
      ensures VariableNames(scope.variables) == VariableNames(old(scope.variables)) + ScopeNames(s)
      ensures forall k :: |old(scope.variables)| <= k < |scope.variables| ==> fresh(scope.variables[k])
      ensures SymbolFor(r.variable, s.identifier, s.keyword.kind == LetKeyword, enclosing.None?)
      ensures var init := CocoaExpressionBinder.BindExpression(old(Env()), s.initializer, false);
        var t := DeclaredType(s.typeClause).GetOr(TypeOf(init.expression));
        r.variable.typeSymbol == t
        && r.initializer == BindConversion(classify, ExpressionSpan(s.initializer), Bound(init.expression, []), t, false).expression
    {
      var isReadOnly := s.keyword.kind == LetKeyword;
      var declared := BindTypeClause(s.typeClause);
      var initializer := BindExpression(s.initializer, false);
      var t := declared.GetOr(TypeOf(initializer));
      var variable := BindVariable(s.identifier, isReadOnly, t);
      var converted := BindConversion(classify, ExpressionSpan(s.initializer), Bound(initializer, []), t, false);
      diagnostics := diagnostics + converted.diagnostics;
      r := BoundStatement.VariableDeclaration(variable, converted.expression);
    }

    method BindIfStatement(s: StatementSyntax) returns (r: BoundStatement)
      requires Valid() && s.IfStatement?
      modifies this, scope
      ensures Valid() && scope == old(scope) && scope.functions == old(scope.functions)
      ensures VariableNames(scope.variables) == VariableNames(old(scope.variables)) + ScopeNames(s)
      ensures forall k :: |old(scope.variables)| <= k < |scope.variables| ==> fresh(scope.variables[k])
      ensures old(scope.variables) <= scope.variables
      ensures old(diagnostics) + CocoaExpressionBinder.BindExpressionTo(old(Env()), s.condition, BoolType).diagnostics <= diagnostics
      ensures Shaped(s, r, enclosing.None?)
      ensures r.condition == CocoaExpressionBinder.BindExpressionTo(old(Env()), s.condition, BoolType).expression
      decreases s, 0
    {
      var condition := BindExpressionTo(s.condition, BoolType);
      var thenStatement := BindStatement(s.thenStatement);
      var elseStatement: Option<BoundStatement> := None;
      if s.elseClause.Some? {
        var e := BindStatement(s.elseClause.value.elseStatement);
        elseStatement := Some(e);
      }
      r := BoundStatement.IfStatement(condition, thenStatement, elseStatement);
    }

    method BindWhileStatement(s: StatementSyntax) returns (r: BoundStatement)
      requires Valid() && s.WhileStatement?
      modifies this, scope
      ensures Valid() && scope == old(scope) && scope.functions == old(scope.functions)
      ensures VariableNames(scope.variables) == VariableNames(old(scope.variables)) + ScopeNames(s)
      ensures forall k :: |old(scope.variables)| <= k < |scope.variables| ==> fresh(scope.variables[k])
      ensures old(scope.variables) <= scope.variables
      ensures old(diagnostics) + CocoaExpressionBinder.BindExpressionTo(old(Env()), s.condition, BoolType).diagnostics <= diagnostics
      ensures Shaped(s, r, enclosing.None?)
      ensures r.condition == CocoaExpressionBinder.BindExpressionTo(old(Env()), s.condition, BoolType).expression
      decreases s, 0
    {
      var condition := BindExpressionTo(s.condition, BoolType);
      var body := BindStatement(s.body);
      r := BoundStatement.WhileStatement(condition, body);
    }

    /** The body is bound before the condition, so the condition sees the
        scope as the body leaves it and its diagnostics come last. */
    method BindDoWhileStatement(s: StatementSyntax) returns (r: BoundStatement)
      requires Valid() && s.DoWhileStatement?
      modifies this, scope
      ensures Valid() && scope == old(scope) && scope.functions == old(scope.functions)
      ensures VariableNames(scope.variables) == VariableNames(old(scope.variables)) + ScopeNames(s)
      ensures forall k :: |old(scope.variables)| <= k < |scope.variables| ==> fresh(scope.variables[k])
      ensures old(scope.variables) <= scope.variables && old(diagnostics) <= diagnostics
      ensures Shaped(s, r, enclosing.None?)
      ensures r.condition == CocoaExpressionBinder.BindExpressionTo(Env(), s.condition, BoolType).expression
      ensures var d := CocoaExpressionBinder.BindExpressionTo(Env(), s.condition, BoolType).diagnostics;
        |d| <= |diagnostics| && diagnostics[|diagnostics| - |d|..] == d
      decreases s, 0
    {
      var body := BindStatement(s.body);
      var condition := BindExpressionTo(s.condition, BoolType);
      r := BoundStatement.DoWhileStatement(body, condition);
    }

    /** The bounds are bound in the current scope; the loop variable, a
        read-only int, and the body in a fresh child scope, which is then
        dropped. */
    method BindForStatement(s: StatementSyntax) returns (r: BoundStatement)
      requires Valid() && s.ForStatement?
      modifies this, scope
      ensures Valid() && scope == old(scope) && unchanged(scope)
      ensures old(diagnostics) <= diagnostics
      ensures Shaped(s, r, enclosing.None?) && fresh(r.variable)
      ensures r.lowerBound == CocoaExpressionBinder.BindExpressionTo(old(Env()), s.lowerBound, IntType).expression
      ensures r.upperBound == CocoaExpressionBinder.BindExpressionTo(old(Env()), s.upperBound, IntType).expression
      ensures old(diagnostics) + CocoaExpressionBinder.BindExpressionTo(old(Env()), s.lowerBound, IntType).diagnostics
        + CocoaExpressionBinder.BindExpressionTo(old(Env()), s.upperBound, IntType).diagnostics <= diagnostics
      decreases s, 1
    {
      var lowerBound := BindExpressionTo(s.lowerBound, IntType);
      var upperBound := BindExpressionTo(s.upperBound, IntType);
      var variable, body := BindLoopScope(s);
      r := BoundStatement.ForStatement(variable, lowerBound, upperBound, body);
    }

    /** The for statement's own scope: the loop variable and the body are
        bound in a fresh child of the current scope, which is then dropped. */
    method BindLoopScope(s: StatementSyntax) returns (variable: VariableSymbol, body: BoundStatement)
      requires Valid() && s.ForStatement?
      modifies this, scope
      ensures Valid() && scope == old(scope) && unchanged(scope)
      ensures old(diagnostics) <= diagnostics
      ensures fresh(variable) && SymbolFor(variable, s.identifier, true, enclosing.None?) && variable.typeSymbol == IntType
      ensures Shaped(s.body, body, enclosing.None?)
      decreases s, 0
    {
      var outer := scope;
      var inner := new BoundScope(Some(outer));
      scope := inner;
      variable := BindVariable(s.identifier, true, IntType);
      body := BindStatement(s.body);
      scope := outer;
    }

    /** The parameter loop of BindFunctionDeclaration: one read-only
        parameter symbol per kept parameter. */
    method BindParameterList(ps: seq<ParameterSyntax>) returns (parameters: seq<VariableSymbol>)
      modifies this
      ensures scope == old(scope)
      ensures diagnostics == old(diagnostics) + BindParameters(ps).diagnostics
      ensures var kept := BindParameters(ps).kept;
        |parameters| == |kept|
        && forall i :: 0 <= i < |kept| ==>
          parameters[i].name == ParameterName(kept[i]) && IsParameter(parameters[i])
          && parameters[i].typeSymbol == DeclaredType(Some(kept[i].typeClause)).GetOr(NoType)
    {
      parameters := [];
      var seen: set<string> := {};
      ghost var kept: seq<ParameterSyntax> := [];
      ghost var reported: seq<Diagnostic> := [];
      var i := 0;
      while i < |ps|
        invariant 0 <= i <= |ps| && scope == old(scope)
        invariant diagnostics == old(diagnostics) + reported
        invariant BindParameters(ps[..i]) == ParameterBinding(kept, seen, reported)
        invariant |parameters| == |kept|
        invariant forall j :: 0 <= j < |kept| ==>
          parameters[j].name == ParameterName(kept[j]) && IsParameter(parameters[j])
          && parameters[j].typeSymbol == DeclaredType(Some(kept[j].typeClause)).GetOr(NoType)
      {
        var p := ps[i];
        var name := ParameterName(p);
        var t := BindTypeClause(Some(p.typeClause));
        assert ps[..i + 1][..i] == ps[..i];
        reported := reported + TypeClauseDiagnostics(Some(p.typeClause));
        if name in seen {
          diagnostics := diagnostics + [Diagnostic(p.Span(), ParameterAlreadyDeclared(name))];
          reported := reported + [Diagnostic(p.Span(), ParameterAlreadyDeclared(name))];
        } else {
          seen := seen + {name};
          var parameter := new VariableSymbol(name, Parameter, true, t.GetOr(NoType));
          parameters := parameters + [parameter];
          kept := kept + [p];
        }
        i := i + 1;
      }
      assert ps[..i] == ps;
    }

    /** BindFunctionDeclaration: the parameters that survive the duplicate
        check, a return type defaulting to void (any other is reported as
        unsupported), and a declaration that fails on a name this scope
        already has. */
    method BindFunctionDeclaration(syntax: FunctionDeclarationSyntax) returns (f: FunctionSymbol)
      requires Valid()
      modifies this, scope
      ensures Valid() && scope == old(scope) && scope.variables == old(scope.variables)
      ensures fresh(f) && f.name == syntax.identifier.text.value && f.declaration == Some(syntax)
      ensures f.returnType == DeclaredType(syntax.typeClause).GetOr(VoidType)
      ensures var kept := BindParameters(syntax.parameters).kept;
        |f.parameters| == |kept|
        && forall i :: 0 <= i < |kept| ==>
          f.parameters[i].name == ParameterName(kept[i]) && IsParameter(f.parameters[i])
          && f.parameters[i].typeSymbol == DeclaredType(Some(kept[i].typeClause)).GetOr(NoType)
      ensures scope.functions ==
        if FunctionNamed(old(scope.functions), f.name).None? then old(scope.functions) + [f] else old(scope.functions)
      ensures diagnostics == old(diagnostics) + BindParameters(syntax.parameters).diagnostics
        + TypeClauseDiagnostics(syntax.typeClause)
        + (if f.returnType != VoidType then [Diagnostic(TypeClauseSpan(syntax.typeClause.value), FunctionsAreUnsupported)] else [])
        + (if FunctionNamed(old(scope.functions), f.name).Some? then [Diagnostic(syntax.identifier.Span(), SymbolAlreadyDeclared(f.name))] else [])
    {
      var parameters := BindParameterList(syntax.parameters);
      var declared := BindTypeClause(syntax.typeClause);
      var t := declared.GetOr(VoidType);
      if t != VoidType {
        diagnostics := diagnostics + [Diagnostic(TypeClauseSpan(syntax.typeClause.value), FunctionsAreUnsupported)];
      }
      f := new FunctionSymbol(syntax.identifier.text.value, parameters, t, Some(syntax));
      var ok := scope.TryDeclareFunction(f);
      if !ok {
        diagnostics := diagnostics + [Diagnostic(syntax.identifier.Span(), SymbolAlreadyDeclared(f.name))];
      }
    }
  }

  function PreviousDiagnostics(previous: Option<BoundGlobalScope>): seq<Diagnostic>
  {
    if previous.Some? then previous.value.diagnostics else []
  }

  /** The first loop of BindGlobalScope: the function members are declared
      in order, each as a new symbol unless its name is already taken, so
      each of their names is found afterwards. */
  method BindFunctionMembers(binder: Binder, members: seq<MemberSyntax>)
    requires binder.Valid()
    modifies binder, binder.scope
    ensures binder.Valid() && binder.scope == old(binder.scope)
    ensures binder.scope.variables == old(binder.scope.variables)
    ensures old(binder.diagnostics) <= binder.diagnostics
    ensures forall i :: 0 <= i < |members| && members[i].FunctionMember? ==>
      FunctionNamed(binder.scope.functions, members[i].declaration.identifier.text.value).Some?
    ensures var before := old(binder.scope.functions);
      var kept := KeptFunctionMembers(members, FunctionNames(before));
      && |binder.scope.functions| == |before| + |kept| && binder.scope.functions[..|before|] == before
      && (forall j :: |before| <= j < |binder.scope.functions| ==> fresh(binder.scope.functions[j]))
      && forall k :: 0 <= k < |kept| ==> binder.scope.functions[|before| + k].declaration == Some(kept[k])
  {
    ghost var before := binder.scope.functions;
    var i := 0;
    while i < |members|
      invariant 0 <= i <= |members| && binder.Valid() && binder.scope == old(binder.scope)
      invariant binder.scope.variables == old(binder.scope.variables)
      invariant old(binder.diagnostics) <= binder.diagnostics
      invariant DeclaredMembers(binder.scope.functions, members, i, before)
      invariant forall j :: |before| <= j < |binder.scope.functions| ==> fresh(binder.scope.functions[j])
    {
      DeclareMember(binder, members, i, before);
      i := i + 1;
    }
    assert members[..i] == members;
    KeptFunctionMembersMeaning(members, FunctionNames(before));
    forall i | 0 <= i < |members| && members[i].FunctionMember?
      ensures FunctionNamed(binder.scope.functions, members[i].declaration.identifier.text.value).Some?
    {
      FunctionNamesFound(binder.scope.functions, members[i].declaration.identifier.text.value);
    }
  }

  /** What BindFunctionMembers' loop has done after the first i members,
      starting from the functions `before`: the function members kept so far
      are declared after `before`, in order, and the table's names are
      those of `before` and theirs. */
  ghost predicate DeclaredMembers(fns: seq<FunctionSymbol>, members: seq<MemberSyntax>, i: nat, before: seq<FunctionSymbol>)
    requires i <= |members|
  {
    var kept := KeptFunctionMembers(members[..i], FunctionNames(before));
    && |fns| == |before| + |kept| && fns[..|before|] == before
    && FunctionNames(fns) == FunctionNames(before) + DeclarationNames(kept)
    && forall k :: 0 <= k < |kept| ==> fns[|before| + k].declaration == Some(kept[k])
  }

  /** One turn of BindFunctionMembers' loop: a function member is declared
      as a new symbol unless its name is taken, which is the next step of
      KeptFunctionMembers; a global statement is left for the second loop. */
  method DeclareMember(binder: Binder, members: seq<MemberSyntax>, i: nat, ghost before: seq<FunctionSymbol>)
    requires i < |members| && binder.Valid()
    requires DeclaredMembers(binder.scope.functions, members, i, before)
    modifies binder, binder.scope
    ensures binder.Valid() && binder.scope == old(binder.scope)
    ensures binder.scope.variables == old(binder.scope.variables)
    ensures old(binder.diagnostics) <= binder.diagnostics
    ensures DeclaredMembers(binder.scope.functions, members, i + 1, before)
    ensures old(binder.scope.functions) <= binder.scope.functions
    ensures forall j :: |old(binder.scope.functions)| <= j < |binder.scope.functions| ==> fresh(binder.scope.functions[j])
  {
    if members[i].GlobalStatement? {
      DeclaredMembersSkip(binder.scope.functions, members, i, before);
    } else {
      ghost var current := binder.scope.functions;
      var f := binder.BindFunctionDeclaration(members[i].declaration);
      DeclaredMembersStep(current, binder.scope.functions, f, members, i, before);
    }
  }

  /** A global statement leaves what the first loop has done as it was. */
  lemma DeclaredMembersSkip(fns: seq<FunctionSymbol>, members: seq<MemberSyntax>, i: nat, before: seq<FunctionSymbol>)
    requires i < |members| && members[i].GlobalStatement?
    requires DeclaredMembers(fns, members, i, before)
    ensures DeclaredMembers(fns, members, i + 1, before)
  {
    assert members[..i + 1][..i] == members[..i];
  }

  /** Declaring a function member's symbol, unless its name is already in
      the table, is the next step of KeptFunctionMembers. */
  lemma DeclaredMembersStep(fns: seq<FunctionSymbol>, fns': seq<FunctionSymbol>, f: FunctionSymbol,
                            members: seq<MemberSyntax>, i: nat, before: seq<FunctionSymbol>)
    requires i < |members| && members[i].FunctionMember?
    requires DeclaredMembers(fns, members, i, before)
    requires f.declaration == Some(members[i].declaration) && f.name == members[i].declaration.identifier.text.value
    requires fns' == if FunctionNamed(fns, f.name).None? then fns + [f] else fns
    ensures DeclaredMembers(fns', members, i + 1, before) && fns <= fns'
  {
    var previous := KeptFunctionMembers(members[..i], FunctionNames(before));
    assert members[..i + 1][..i] == members[..i];
    FunctionNamesFound(fns, f.name);
    if FunctionNamed(fns, f.name).None? {
      FunctionNamesAppend(fns, f);
      DeclarationNamesAppend(previous, members[i].declaration);
      var kept := previous + [members[i].declaration];
      assert KeptFunctionMembers(members[..i + 1], FunctionNames(before)) == kept;
      forall k | 0 <= k < |kept|
        ensures fns'[|before| + k].declaration == Some(kept[k])
      {
        if k < |previous| {
          assert fns'[|before| + k] == fns[|before| + k];
        }
      }
      assert fns'[..|before|] == fns[..|before|];
    } else {
      assert KeptFunctionMembers(members[..i + 1], FunctionNames(before)) == previous;
    }
  }

  /** The second loop of BindGlobalScope: the global statements, in order. */
  method BindGlobalStatements(binder: Binder, members: seq<MemberSyntax>) returns (statements: seq<BoundStatement>)
    requires binder.Valid()
    modifies binder, binder.scope
    ensures binder.Valid() && binder.scope == old(binder.scope)
    ensures binder.scope.functions == old(binder.scope.functions)
    ensures old(binder.diagnostics) <= binder.diagnostics
    ensures |statements| == |GlobalStatements(members)|
    ensures forall j :: 0 <= j < |statements| ==> Shaped(GlobalStatements(members)[j], statements[j], binder.enclosing.None?)
    ensures VariableNames(binder.scope.variables) == VariableNames(old(binder.scope.variables)) + GlobalNames(members)
    ensures old(binder.scope.variables) <= binder.scope.variables
    ensures forall j :: |old(binder.scope.variables)| <= j < |binder.scope.variables| ==> fresh(binder.scope.variables[j])
  {
    statements := [];
    var i := 0;
    while i < |members|
      invariant 0 <= i <= |members| && binder.Valid() && binder.scope == old(binder.scope)
      invariant binder.scope.functions == old(binder.scope.functions)
      invariant old(binder.diagnostics) <= binder.diagnostics
      invariant |statements| == |GlobalStatements(members[..i])|
      invariant forall j :: 0 <= j < |statements| ==> Shaped(GlobalStatements(members[..i])[j], statements[j], binder.enclosing.None?)
      invariant VariableNames(binder.scope.variables) == VariableNames(old(binder.scope.variables)) + GlobalNames(members[..i])
      invariant old(binder.scope.variables) <= binder.scope.variables
      invariant forall j :: |old(binder.scope.variables)| <= j < |binder.scope.variables| ==> fresh(binder.scope.variables[j])
    {
      assert members[..i + 1][..i] == members[..i];
      if members[i].GlobalStatement? {
        var statement := binder.BindStatement(members[i].statement);
        statements := statements + [statement];
      }
      i := i + 1;
    }
    assert members[..i] == members;
  }

  /** Binder.BindGlobalScope: the function declarations of a submission are
      bound first, then its global statements, all in a scope on top of the
      earlier submissions; the diagnostics follow the earlier ones. The
      functions are new symbols for the function members whose names come
      first, in member order; the variables are new symbols, one for each
      name the global statements declare in the submission's scope. */
  method BindGlobalScope(previous: Option<BoundGlobalScope>, syntax: CompilationUnitSyntax, builtins: Builtins, classify: Classifier)
    returns (g: BoundGlobalScope)
    ensures g.previous == previous
    ensures PreviousDiagnostics(previous) <= g.diagnostics
    ensures |g.statements| == |GlobalStatements(syntax.members)|
    ensures forall i :: 0 <= i < |g.statements| ==> Shaped(GlobalStatements(syntax.members)[i], g.statements[i], true)
    ensures DistinctVariables(g.variables) && DistinctFunctions(g.functions)
    ensures forall i :: 0 <= i < |g.variables| ==> g.variables[i].kind == GlobalVariable
    ensures forall i :: 0 <= i < |syntax.members| && syntax.members[i].FunctionMember? ==>
      FunctionNamed(g.functions, syntax.members[i].declaration.identifier.text.value).Some?
    ensures var kept := KeptFunctionMembers(syntax.members, {});
      && |g.functions| == |kept|
      && (forall i :: 0 <= i < |g.functions| ==> fresh(g.functions[i]))
      && forall k :: 0 <= k < |kept| ==> g.functions[k].declaration == Some(kept[k])
    ensures forall i :: 0 <= i < |g.variables| ==> fresh(g.variables[i])
    ensures VariableNames(g.variables) == GlobalNames(syntax.members)
  {
    var parent := CreateParentScopes(previous, builtins);
    var binder := new Binder(Some(parent), None, classify);
    var statements := BindMembers(binder, syntax.members);
    var functions := binder.scope.GetDeclaredFunctions();
    var variables := binder.scope.GetDeclaredVariables();
    g := BoundGlobalScope(previous, PreviousDiagnostics(previous) + binder.diagnostics, functions, variables, statements);
  }

  /** BindGlobalScope's two loops, in a binder whose own scope starts empty:
      what they leave in that scope and the statements they bind. */
  method BindMembers(binder: Binder, members: seq<MemberSyntax>) returns (statements: seq<BoundStatement>)
    requires binder.Valid() && binder.enclosing.None? && binder.scope.functions == [] && binder.scope.variables == []
    modifies binder, binder.scope
    ensures binder.Valid() && binder.scope == old(binder.scope)
    ensures old(binder.diagnostics) <= binder.diagnostics
    ensures |statements| == |GlobalStatements(members)|
    ensures forall i :: 0 <= i < |statements| ==> Shaped(GlobalStatements(members)[i], statements[i], true)
    ensures forall i :: 0 <= i < |members| && members[i].FunctionMember? ==>
      FunctionNamed(binder.scope.functions, members[i].declaration.identifier.text.value).Some?
    ensures var kept := KeptFunctionMembers(members, {});
      && |binder.scope.functions| == |kept|
      && (forall i :: 0 <= i < |binder.scope.functions| ==> fresh(binder.scope.functions[i]))
      && forall k :: 0 <= k < |kept| ==> binder.scope.functions[k].declaration == Some(kept[k])
    ensures forall i :: 0 <= i < |binder.scope.variables| ==> fresh(binder.scope.variables[i])
    ensures VariableNames(binder.scope.variables) == GlobalNames(members)
  {
    assert FunctionNames(binder.scope.functions) == {} && VariableNames(binder.scope.variables) == {};
    BindFunctionMembers(binder, members);
    statements := BindGlobalStatements(binder, members);
  }

  function SetOf(fs: seq<FunctionSymbol>): set<FunctionSymbol>
  {
    set i | 0 <= i < |fs| :: fs[i]
  }

  /** The functions declared by a sequence of submissions. */
  function FunctionsOf(gs: seq<BoundGlobalScope>): set<FunctionSymbol>
  {
    if gs == [] then {}
    else FunctionsOf(gs[..|gs| - 1]) + SetOf(gs[|gs| - 1].functions)
  }

  lemma {:induction false} FunctionsOfContains(gs: seq<BoundGlobalScope>, k: nat, f: FunctionSymbol)
    requires k < |gs| && f in gs[k].functions
    ensures f in FunctionsOf(gs)
  {
    if k < |gs| - 1 {
      assert gs[..|gs| - 1][k] == gs[k];
      FunctionsOfContains(gs[..|gs| - 1], k, f);
    }
  }

  lemma FunctionsOfStep(gs: seq<BoundGlobalScope>, k: nat)
    requires k < |gs|
    ensures FunctionsOf(gs[..k + 1]) == FunctionsOf(gs[..k]) + SetOf(gs[k].functions)
  {
    assert gs[..k + 1][..k] == gs[..k];
  }

  datatype BoundProgram = BoundProgram(
    diagnostics: seq<Diagnostic>, functions: map<FunctionSymbol, seq<BoundStatement>>, statement: seq<BoundStatement>)

  /** How BindProgram can fail: a function symbol without a declaration
      (a null dereference in the source) or one seen twice (a duplicate key
      in its dictionary of bodies). */
  datatype ProgramFault = MissingDeclaration(missing: FunctionSymbol) | DuplicateFunction(duplicate: FunctionSymbol)

  datatype ProgramOutcome = ProgramBound(program: BoundProgram) | ProgramFailed(fault: ProgramFault)

  /** The functions of a sequence of submissions in the order BindProgram
      visits them: submission by submission, each in declaration order. */
  function AllFunctions(gs: seq<BoundGlobalScope>): seq<FunctionSymbol>
  {
    if gs == [] then [] else AllFunctions(gs[..|gs| - 1]) + gs[|gs| - 1].functions
  }

  /** The exception BindProgram's loops raise when they visit the functions
      fs with bodies already recorded for seen: the first function without
      a declaration, or the first one whose body is already recorded. */
  function FirstFault(fs: seq<FunctionSymbol>, seen: set<FunctionSymbol>): Option<ProgramFault>
  {
    if fs == [] then None
    else if fs[0].declaration.None? then Some(MissingDeclaration(fs[0]))
    else if fs[0] in seen then Some(DuplicateFunction(fs[0]))
    else FirstFault(fs[1..], seen + {fs[0]})
  }

  /** The functions BindProgram visits, from the given submission back. */
  function ProgramFunctions(globalScope: BoundGlobalScope): seq<FunctionSymbol>
  {
    AllFunctions(Ancestors(Some(globalScope)))
  }

  /** The exception of binding the program on top of a global scope, if any. */
  function ProgramFaultOf(globalScope: BoundGlobalScope): Option<ProgramFault>
  {
    FirstFault(ProgramFunctions(globalScope), {})
  }

  /** A recorded body is the lowering of b, a statement bound from the
      function's declared body. */
  predicate LoweredFrom(f: FunctionSymbol, lower: Lowerer, body: seq<BoundStatement>, b: BoundStatement)
  {
    f.declaration.Some? && Shaped(f.declaration.value.body, b, false) && body == lower(b)
  }

  /** What a program bound without an exception holds: the lowered block of
      global statements, and bodies for exactly the functions of all
      submissions. */
  predicate BindsProgram(globalScope: BoundGlobalScope, lower: Lowerer, p: BoundProgram)
  {
    && p.statement == lower(BoundStatement.BlockStatement(globalScope.statements))
    && p.functions.Keys == FunctionsOf(Ancestors(Some(globalScope)))
  }

  lemma {:induction false} SetOfAppend(a: seq<FunctionSymbol>, b: seq<FunctionSymbol>)
    ensures SetOf(a + b) == SetOf(a) + SetOf(b)
  {
    forall f | f in SetOf(a + b) ensures f in SetOf(a) + SetOf(b) {
      var i :| 0 <= i < |a + b| && (a + b)[i] == f;
      if i >= |a| { assert b[i - |a|] == f; }
    }
    forall f | f in SetOf(a) + SetOf(b) ensures f in SetOf(a + b) {
      if f in SetOf(a) {
        var i :| 0 <= i < |a| && a[i] == f;
        assert (a + b)[i] == f;
      } else {
        var i :| 0 <= i < |b| && b[i] == f;
        assert (a + b)[|a| + i] == f;
      }
    }
  }

  /** The set of AllFunctions is FunctionsOf. */
  lemma {:induction false} AllFunctionsSet(gs: seq<BoundGlobalScope>)
    ensures SetOf(AllFunctions(gs)) == FunctionsOf(gs)
    decreases |gs|
  {
    if gs != [] {
      AllFunctionsSet(gs[..|gs| - 1]);
      SetOfAppend(AllFunctions(gs[..|gs| - 1]), gs[|gs| - 1].functions);
    }
  }

  lemma AllFunctionsStep(gs: seq<BoundGlobalScope>, k: nat)
    requires k < |gs|
    ensures AllFunctions(gs[..k + 1]) == AllFunctions(gs[..k]) + gs[k].functions
  {
    assert gs[..k + 1][..k] == gs[..k];
  }

  /** The functions of the first submissions come first. */
  lemma {:induction false} AllFunctionsPrefix(gs: seq<BoundGlobalScope>, k: nat)
    requires k <= |gs|
    ensures AllFunctions(gs[..k]) <= AllFunctions(gs)
    decreases |gs| - k
  {
    if k < |gs| {
      AllFunctionsPrefix(gs, k + 1);
      AllFunctionsStep(gs, k);
    } else {
      assert gs[..k] == gs;
    }
  }

  /** Visiting a + b is visiting a, then, if a raised nothing, visiting b
      with a's functions recorded. */
  lemma {:induction false} FirstFaultAppend(a: seq<FunctionSymbol>, b: seq<FunctionSymbol>, seen: set<FunctionSymbol>)
    ensures FirstFault(a + b, seen) == if FirstFault(a, seen).Some? then FirstFault(a, seen) else FirstFault(b, seen + SetOf(a))
    decreases |a|
  {
    if a == [] {
      assert a + b == b;
      assert seen + SetOf(a) == seen;
    } else {
      assert (a + b)[0] == a[0] && (a + b)[1..] == a[1..] + b;
      if a[0].declaration.Some? && a[0] !in seen {
        FirstFaultAppend(a[1..], b, seen + {a[0]});
        SetOfAppend([a[0]], a[1..]);
        assert [a[0]] + a[1..] == a;
        assert SetOf([a[0]]) == {a[0]};
        assert seen + {a[0]} + SetOf(a[1..]) == seen + SetOf(a);
      }
    }
  }

  /** An exception in a prefix is the exception of the whole. */
  lemma FirstFaultPrefix(a: seq<FunctionSymbol>, c: seq<FunctionSymbol>, seen: set<FunctionSymbol>)
    requires a <= c && FirstFault(a, seen).Some?
    ensures FirstFault(c, seen) == FirstFault(a, seen)
  {
    assert c == a + c[|a|..];
    FirstFaultAppend(a, c[|a|..], seen);
  }

  /** There is no exception exactly when every function has a declaration,
      none is already recorded, and none appears twice. */
  lemma {:induction false} FirstFaultNone(fs: seq<FunctionSymbol>, seen: set<FunctionSymbol>)
    ensures FirstFault(fs, seen).None? <==>
      && (forall i :: 0 <= i < |fs| ==> fs[i].declaration.Some? && fs[i] !in seen)
      && (forall i, j :: 0 <= i < j < |fs| ==> fs[i] != fs[j])
    decreases |fs|
  {
    if fs != [] {
      FirstFaultNone(fs[1..], seen + {fs[0]});
      assert forall i :: 0 < i < |fs| ==> fs[i] == fs[1..][i - 1];
    }
  }

  /** An exception names a function of fs: one without a declaration, or
      one recorded before or met earlier in fs. */
  lemma {:induction false} FirstFaultNames(fs: seq<FunctionSymbol>, seen: set<FunctionSymbol>)
    requires FirstFault(fs, seen).Some?
    ensures var e := FirstFault(fs, seen).value;
      && (e.MissingDeclaration? ==> e.missing in fs && e.missing.declaration.None?)
      && (e.DuplicateFunction? ==> e.duplicate in fs && e.duplicate.declaration.Some? && e.duplicate in seen + SetOf(fs))
    decreases |fs|
  {
    if fs[0].declaration.Some? && fs[0] !in seen {
      FirstFaultNames(fs[1..], seen + {fs[0]});
      SetOfAppend([fs[0]], fs[1..]);
      assert [fs[0]] + fs[1..] == fs;
      assert SetOf([fs[0]]) == {fs[0]};
    } else if fs[0].declaration.Some? {
      assert fs[0] in SetOf(fs);
    }
  }

  /** The inner loop of BindProgram over the functions of one submission. */
  method BindFunctionBodies(fs: seq<FunctionSymbol>, parentScope: BoundScope, classify: Classifier, lower: Lowerer,
                            bodies: map<FunctionSymbol, seq<BoundStatement>>, diagnostics: seq<Diagnostic>)
    returns (fault: Option<ProgramFault>, bodies': map<FunctionSymbol, seq<BoundStatement>>, diagnostics': seq<Diagnostic>)
    requires parentScope.Valid()
    ensures fault == FirstFault(fs, bodies.Keys)
    ensures fault.None? ==> bodies'.Keys == bodies.Keys + SetOf(fs) && diagnostics <= diagnostics'
    ensures fault.None? ==> forall f :: f in bodies ==> bodies'[f] == bodies[f]
    ensures fault.None? ==> forall f :: f in bodies'.Keys - bodies.Keys ==> exists b :: LoweredFrom(f, lower, bodies'[f], b)
    ensures fault.Some? && fault.value.MissingDeclaration? ==> fault.value.missing in fs && fault.value.missing.declaration.None?
    ensures fault.Some? && fault.value.DuplicateFunction? ==> fault.value.duplicate in fs
  {
    bodies' := bodies;
    diagnostics' := diagnostics;
    fault := None;
    var j := 0;
    while j < |fs| && fault.None?
      invariant 0 <= j <= |fs| && parentScope.Valid()
      invariant fault.None? ==> FirstFault(fs[..j], bodies.Keys).None?
      invariant fault.Some? ==> fault == FirstFault(fs, bodies.Keys)
      invariant fault.None? ==> bodies'.Keys == bodies.Keys + SetOf(fs[..j]) && diagnostics <= diagnostics'
      invariant fault.None? ==> forall f :: f in bodies ==> bodies'[f] == bodies[f]
      invariant fault.None? ==> forall f :: f in bodies'.Keys - bodies.Keys ==> exists b :: LoweredFrom(f, lower, bodies'[f], b)
      decreases |fs| - j, if fault.None? then 1 else 0
    {
      var found;
      fault, bodies', diagnostics', found := BindNextBody(fs, j, parentScope, classify, lower, bodies, bodies', diagnostics, diagnostics');
      if fault.None? {
        j := j + 1;
      }
    }
    assert fault.None? ==> fs[..j] == fs;
    if fault.Some? { FirstFaultNames(fs, bodies.Keys); }
  }

  /** One turn of BindProgram's inner loop: the j-th function of the
      submission, when the ones before it raised nothing; `found` is what
      its body's binder reports, which is appended to the diagnostics. */
  method BindNextBody(fs: seq<FunctionSymbol>, j: nat, parentScope: BoundScope, classify: Classifier, lower: Lowerer,
                      ghost bodies: map<FunctionSymbol, seq<BoundStatement>>, current: map<FunctionSymbol, seq<BoundStatement>>,
                      ghost diagnostics: seq<Diagnostic>, currentDiagnostics: seq<Diagnostic>)
    returns (fault: Option<ProgramFault>, bodies': map<FunctionSymbol, seq<BoundStatement>>, diagnostics': seq<Diagnostic>,
             found: seq<Diagnostic>)
    requires j < |fs| && parentScope.Valid()
    requires FirstFault(fs[..j], bodies.Keys).None?
    requires current.Keys == bodies.Keys + SetOf(fs[..j]) && diagnostics <= currentDiagnostics
    requires forall f :: f in bodies ==> current[f] == bodies[f]
    requires forall f :: f in current.Keys - bodies.Keys ==> exists b :: LoweredFrom(f, lower, current[f], b)
    ensures fault.Some? ==> fault == FirstFault(fs, bodies.Keys)
    ensures fault.None? ==> FirstFault(fs[..j + 1], bodies.Keys).None?
    ensures fault.None? ==> bodies'.Keys == bodies.Keys + SetOf(fs[..j + 1]) && diagnostics <= diagnostics'
    ensures fault.None? ==> forall f :: f in bodies ==> bodies'[f] == bodies[f]
    ensures fault.None? ==> forall f :: f in bodies'.Keys - bodies.Keys ==> exists b :: LoweredFrom(f, lower, bodies'[f], b)
    ensures fault.None? ==> diagnostics' == currentDiagnostics + found
  {
    var f := fs[j];
    FirstFaultAppend(fs[..j], fs[j..], bodies.Keys);
    assert fs[..j] + fs[j..] == fs;
    assert fs[j..][0] == f;
    bodies', diagnostics', found := current, currentDiagnostics, [];
    if f.declaration.None? {
      fault := Some(MissingDeclaration(f));
    } else {
      var body;
      body, found := BindBody(f, parentScope, classify);
      if f in current {
        fault := Some(DuplicateFunction(f));
      } else {
        fault := None;
        bodies' := current[f := lower(body)];
        assert LoweredFrom(f, lower, bodies'[f], body);
        diagnostics' := currentDiagnostics + found;
        assert fs[..j + 1] == fs[..j] + [f];
        FirstFaultAppend(fs[..j], [f], bodies.Keys);
        assert SetOf(fs[..j + 1]) == SetOf(fs[..j]) + {f} by { SetOfAppend(fs[..j], [f]); assert SetOf([f]) == {f}; }
      }
    }
  }

  /** One function's body, bound by a binder under the parent scope with
      the function as the enclosing one, and the diagnostics it reports. */
  method BindBody(f: FunctionSymbol, parentScope: BoundScope, classify: Classifier)
    returns (body: BoundStatement, diagnostics: seq<Diagnostic>)
    requires f.declaration.Some? && parentScope.Valid()
    ensures Shaped(f.declaration.value.body, body, false)
  {
    var binder := new Binder(Some(parentScope), Some(f), classify);
    body := binder.BindStatement(f.declaration.value.body);
    diagnostics := binder.diagnostics;
  }

  /** One turn of BindProgram's outer loop: the bodies of the k-th
      submission back, on top of those of the later ones. */
  method BindSubmissionBodies(ghost all: seq<BoundGlobalScope>, ghost k: nat, fs: seq<FunctionSymbol>, parentScope: BoundScope,
                              classify: Classifier, lower: Lowerer,
                              bodies: map<FunctionSymbol, seq<BoundStatement>>, diagnostics: seq<Diagnostic>)
    returns (fault: Option<ProgramFault>, bodies': map<FunctionSymbol, seq<BoundStatement>>, diagnostics': seq<Diagnostic>)
    requires k < |all| && fs == all[k].functions && parentScope.Valid()
    requires bodies.Keys == FunctionsOf(all[..k]) && FirstFault(AllFunctions(all[..k]), {}).None?
    requires forall f :: f in bodies ==> exists b :: LoweredFrom(f, lower, bodies[f], b)
    ensures fault.None? ==> bodies'.Keys == FunctionsOf(all[..k + 1]) && FirstFault(AllFunctions(all[..k + 1]), {}).None?
    ensures fault.None? ==> forall f :: f in bodies' ==> exists b :: LoweredFrom(f, lower, bodies'[f], b)
    ensures fault.None? ==> diagnostics <= diagnostics'
    ensures fault.Some? ==> fault == FirstFault(AllFunctions(all), {})
  {
    FunctionsOfStep(all, k);
    AllFunctionsStep(all, k);
    AllFunctionsSet(all[..k]);
    FirstFaultAppend(AllFunctions(all[..k]), fs, {});
    assert {} + SetOf(AllFunctions(all[..k])) == bodies.Keys;
    fault, bodies', diagnostics' := BindFunctionBodies(fs, parentScope, classify, lower, bodies, diagnostics);
    if fault.Some? {
      AllFunctionsPrefix(all, k + 1);
      FirstFaultPrefix(AllFunctions(all[..k + 1]), AllFunctions(all), {});
    } else {
      forall f | f in bodies' ensures exists b :: LoweredFrom(f, lower, bodies'[f], b) {
        if f in bodies { assert bodies'[f] == bodies[f]; }
      }
    }
  }

  /** The outer loop of BindProgram, from the given submission back to the
      first. */
  method BindAllFunctionBodies(globalScope: BoundGlobalScope, parentScope: BoundScope, classify: Classifier, lower: Lowerer)
    returns (fault: Option<ProgramFault>, bodies: map<FunctionSymbol, seq<BoundStatement>>, diagnostics: seq<Diagnostic>)
    requires parentScope.Valid()
    ensures fault == ProgramFaultOf(globalScope)
    ensures fault.None? ==> bodies.Keys == FunctionsOf(Ancestors(Some(globalScope)))
    ensures fault.None? ==> forall f :: f in bodies ==> exists b :: LoweredFrom(f, lower, bodies[f], b)
    ensures fault.Some? && fault.value.MissingDeclaration? ==>
      fault.value.missing in FunctionsOf(Ancestors(Some(globalScope))) && fault.value.missing.declaration.None?
    ensures fault.Some? && fault.value.DuplicateFunction? ==>
      fault.value.duplicate in FunctionsOf(Ancestors(Some(globalScope)))
  {
    bodies := map[];
    diagnostics := [];
    fault := None;
    ghost var all := Ancestors(Some(globalScope));
    ghost var k := 0;
    var scope := Some(globalScope);
    while scope.Some? && fault.None?
      invariant 0 <= k <= |all| && Ancestors(scope) == all[k..]
      invariant parentScope.Valid()
      invariant fault.None? ==> bodies.Keys == FunctionsOf(all[..k]) && FirstFault(AllFunctions(all[..k]), {}).None?
      invariant fault.None? ==> forall f :: f in bodies ==> exists b :: LoweredFrom(f, lower, bodies[f], b)
      invariant fault.Some? ==> fault == FirstFault(AllFunctions(all), {})
      decreases scope, if fault.None? then 1 else 0
    {
      assert all[k] == scope.value;
      fault, bodies, diagnostics := BindSubmissionBodies(all, k, scope.value.functions, parentScope, classify, lower, bodies, diagnostics);
      if fault.None? {
        assert all[k..] == [all[k]] + all[k + 1..];
        k := k + 1;
        scope := scope.value.previous;
      }
    }
    assert fault.None? ==> all[..k] == all;
    if fault.Some? { FaultInFunctions(all); }
  }

  /** The exception of visiting all functions of some submissions names
      one of their functions. */
  lemma FaultInFunctions(gs: seq<BoundGlobalScope>)
    requires FirstFault(AllFunctions(gs), {}).Some?
    ensures var e := FirstFault(AllFunctions(gs), {}).value;
      && (e.MissingDeclaration? ==> e.missing in FunctionsOf(gs) && e.missing.declaration.None?)
      && (e.DuplicateFunction? ==> e.duplicate in FunctionsOf(gs))
  {
    var fs := AllFunctions(gs);
    var e := FirstFault(fs, {}).value;
    FirstFaultNames(fs, {});
    AllFunctionsSet(gs);
    var f := if e.MissingDeclaration? then e.missing else e.duplicate;
    var i :| 0 <= i < |fs| && fs[i] == f;
    assert f in SetOf(fs);
  }

  /** Binder.BindProgram: every function of every submission is bound in a
      binder of its own over the shared parent scopes and lowered; the
      global statements are lowered as one block. It fails exactly with
      the first exception of visiting all functions. */
  method BindProgram(globalScope: BoundGlobalScope, builtins: Builtins, classify: Classifier, lower: Lowerer)
    returns (r: ProgramOutcome)
    ensures r.ProgramFailed? <==> ProgramFaultOf(globalScope).Some?
    ensures r.ProgramFailed? ==> ProgramFaultOf(globalScope) == Some(r.fault)
    ensures r.ProgramBound? ==> BindsProgram(globalScope, lower, r.program)
    ensures r.ProgramBound? ==> forall f :: f in r.program.functions ==> exists b :: LoweredFrom(f, lower, r.program.functions[f], b)
    ensures r.ProgramBound? ==>
      r.program.statement == lower(BoundStatement.BlockStatement(globalScope.statements))
      && r.program.functions.Keys == FunctionsOf(Ancestors(Some(globalScope)))
    ensures r.ProgramFailed? && r.fault.MissingDeclaration? ==>
      r.fault.missing in FunctionsOf(Ancestors(Some(globalScope))) && r.fault.missing.declaration.None?
    ensures r.ProgramFailed? && r.fault.DuplicateFunction? ==>
      r.fault.duplicate in FunctionsOf(Ancestors(Some(globalScope)))
  {
    var parentScope := CreateParentScopes(Some(globalScope), builtins);
    var fault, bodies, diagnostics := BindAllFunctionBodies(globalScope, parentScope, classify, lower);
    if fault.Some? {
      return ProgramFailed(fault.value);
    }
    r := ProgramBound(BoundProgram(diagnostics, bodies, lower(BoundStatement.BlockStatement(globalScope.statements))));
  }

  /** Visiting functions with none recorded raises nothing exactly when
      every one has a declaration and none appears twice. */
  lemma FirstFaultNoneFresh(fs: seq<FunctionSymbol>)
    ensures FirstFault(fs, {}).None? <==>
      && (forall i :: 0 <= i < |fs| ==> fs[i].declaration.Some?)
      && (forall i, j :: 0 <= i < j < |fs| ==> fs[i] != fs[j])
  {
    FirstFaultNone(fs, {});
  }

  /** The program binds without an exception exactly when every function of
      every submission has a declaration and none is visited twice. */
  lemma ProgramFaultOfNone(globalScope: BoundGlobalScope)
    ensures ProgramFaultOf(globalScope).None? <==>
      && (forall i :: 0 <= i < |ProgramFunctions(globalScope)| ==> ProgramFunctions(globalScope)[i].declaration.Some?)
      && (forall i, j :: 0 <= i < j < |ProgramFunctions(globalScope)| ==> ProgramFunctions(globalScope)[i] != ProgramFunctions(globalScope)[j])
  {
    FirstFaultNoneFresh(ProgramFunctions(globalScope));
  }
}
