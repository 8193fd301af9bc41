// BoundScope: a table of the variables and functions declared in one
// scope, linked to the enclosing scope. Each table is a dictionary keyed by
// name; it is kept here as a sequence in insertion order with distinct names.
module CocoaScope {
  import opened Wrappers
  import opened CocoaSymbols

  /** One scope's own declarations, in declaration order. */
  datatype Table = Table(variables: seq<VariableSymbol>, functions: seq<FunctionSymbol>)

  /** The variable of this name in one table, if any. */
  function VariableNamed(vs: seq<VariableSymbol>, name: string): (r: Option<VariableSymbol>)
    ensures r.Some? <==> exists i :: 0 <= i < |vs| && vs[i].name == name
    ensures r.Some? ==> r.value in vs && r.value.name == name
  {
    if vs == [] then None
    else if vs[0].name == name then Some(vs[0])
    else VariableNamed(vs[1..], name)
  }

  function FunctionNamed(fs: seq<FunctionSymbol>, name: string): (r: Option<FunctionSymbol>)
    ensures r.Some? <==> exists i :: 0 <= i < |fs| && fs[i].name == name
    ensures r.Some? ==> r.value in fs && r.value.name == name
  {
    if fs == [] then None
    else if fs[0].name == name then Some(fs[0])
    else FunctionNamed(fs[1..], name)
  }

  predicate DistinctVariables(vs: seq<VariableSymbol>)
  {
    forall i, j :: 0 <= i < j < |vs| ==> vs[i].name != vs[j].name
  }

  predicate DistinctFunctions(fs: seq<FunctionSymbol>)
  {
    forall i, j :: 0 <= i < j < |fs| ==> fs[i].name != fs[j].name
  }

  /** Variable lookup through a chain of tables, innermost first: the
      nearest table that declares the name wins, and the lookup fails
      exactly when no table declares it. */
  function LookUpVariable(chain: seq<Table>, name: string): (r: Option<VariableSymbol>)
    ensures r.Some? ==> exists i :: (0 <= i < |chain| && VariableNamed(chain[i].variables, name) == r
      && forall j :: 0 <= j < i ==> VariableNamed(chain[j].variables, name).None?)
    ensures r.None? <==> forall i :: 0 <= i < |chain| ==> VariableNamed(chain[i].variables, name).None?
  {
    if chain == [] then None
    else if VariableNamed(chain[0].variables, name).Some? then VariableNamed(chain[0].variables, name)
    else
      var r := LookUpVariable(chain[1..], name);
      assert forall i :: 1 <= i < |chain| ==> chain[i] == chain[1..][i - 1];
      r
  }

  function LookUpFunction(chain: seq<Table>, name: string): (r: Option<FunctionSymbol>)
    ensures r.Some? ==> exists i :: (0 <= i < |chain| && FunctionNamed(chain[i].functions, name) == r
      && forall j :: 0 <= j < i ==> FunctionNamed(chain[j].functions, name).None?)
    ensures r.None? <==> forall i :: 0 <= i < |chain| ==> FunctionNamed(chain[i].functions, name).None?
  {
    if chain == [] then None
    else if FunctionNamed(chain[0].functions, name).Some? then FunctionNamed(chain[0].functions, name)
    else
      var r := LookUpFunction(chain[1..], name);
      assert forall i :: 1 <= i < |chain| ==> chain[i] == chain[1..][i - 1];
      r
  }

  lemma {:induction false} VariableNamedAppend(vs: seq<VariableSymbol>, v: VariableSymbol, name: string)
    ensures VariableNamed(vs + [v], name) ==
      if VariableNamed(vs, name).Some? then VariableNamed(vs, name)
      else if v.name == name then Some(v) else None
  {
    if vs != [] {
      assert (vs + [v])[1..] == vs[1..] + [v];
      VariableNamedAppend(vs[1..], v, name);
    }
  }

  lemma {:induction false} FunctionNamedAppend(fs: seq<FunctionSymbol>, f: FunctionSymbol, name: string)
    ensures FunctionNamed(fs + [f], name) ==
      if FunctionNamed(fs, name).Some? then FunctionNamed(fs, name)
      else if f.name == name then Some(f) else None
  {
    if fs != [] {
      assert (fs + [f])[1..] == fs[1..] + [f];
      FunctionNamedAppend(fs[1..], f, name);
    }
  }

  /** In a table with distinct names, each entry is what lookup by its own
      name finds. */
  lemma {:induction false} DistinctVariablesFound(vs: seq<VariableSymbol>, i: nat)
    requires DistinctVariables(vs) && i < |vs|
    ensures VariableNamed(vs, vs[i].name) == Some(vs[i])
  {
    if i > 0 {
      assert vs[1..][i - 1] == vs[i];
      DistinctVariablesFound(vs[1..], i - 1);
    }
  }

  class BoundScope {
    const parent: Option<BoundScope>
    ghost const Repr: set<object>
    var variables: seq<VariableSymbol>
    var functions: seq<FunctionSymbol>

    /** The parent chain is finite and does not lead back to this scope. */
    ghost predicate Valid()
      decreases Repr
    {
      this in Repr &&
      (parent.Some? ==>
        parent.value in Repr && parent.value.Repr < Repr && this !in parent.value.Repr && parent.value.Valid())
    }

    /** Each table is a dictionary: no name is declared twice. */
    predicate Distinct()
      reads this
    {
      DistinctVariables(variables) && DistinctFunctions(functions)
    }

    constructor (parent: Option<BoundScope>)
      requires parent.Some? ==> parent.value.Valid()
      ensures Valid() && Distinct()
      ensures this.parent == parent && variables == [] && functions == []
      ensures Repr == if parent.Some? then {this} + parent.value.Repr else {this}
    {
      this.parent := parent;
      variables := [];
      functions := [];
      Repr := if parent.Some? then {this} + parent.value.Repr else {this};
    }

    /** The tables of this scope and its ancestors, innermost first. */
    function Chain(): (c: seq<Table>)
      requires Valid()
      reads Repr
      ensures |c| >= 1 && c[0] == Table(variables, functions)
      decreases Repr
    {
      [Table(variables, functions)] + (if parent.Some? then parent.value.Chain() else [])
    }

    /** BoundScope.TryLookUp: this scope's table first, then the parent's. */
    function TryLookUpVariable(name: string): (r: Option<VariableSymbol>)
      requires Valid()
      reads Repr
      ensures VariableNamed(variables, name).Some? ==> r == VariableNamed(variables, name)
      decreases Repr
    {
      if VariableNamed(variables, name).Some? then VariableNamed(variables, name)
      else if parent.None? then None
      else parent.value.TryLookUpVariable(name)
    }

    function TryLookUpFunction(name: string): (r: Option<FunctionSymbol>)
      requires Valid()
      reads Repr
      ensures FunctionNamed(functions, name).Some? ==> r == FunctionNamed(functions, name)
      decreases Repr
    {
      if FunctionNamed(functions, name).Some? then FunctionNamed(functions, name)
      else if parent.None? then None
      else parent.value.TryLookUpFunction(name)
    }

    /** Walking the parent chain is lookup through the chain of tables. */
    lemma {:induction false} LookUpFollowsChain(name: string)
      requires Valid()
      ensures TryLookUpVariable(name) == LookUpVariable(Chain(), name)
      ensures TryLookUpFunction(name) == LookUpFunction(Chain(), name)
      decreases Repr
    {
      var c := Chain();
      if parent.Some? {
        parent.value.LookUpFollowsChain(name);
        assert c[1..] == parent.value.Chain();
      } else {
        assert c[1..] == [];
      }
    }

    /** BoundScope.TryDeclare: fails, changing nothing, when this scope
        already has the name; otherwise adds the variable, which lookup by
        its name then finds. */
    method TryDeclareVariable(v: VariableSymbol) returns (ok: bool)
      requires Valid() && Distinct()
      modifies this
      ensures Valid() && Distinct()
      ensures ok <==> VariableNamed(old(variables), v.name).None?
      ensures variables == (if ok then old(variables) + [v] else old(variables))
      ensures functions == old(functions)
      ensures ok ==> TryLookUpVariable(v.name) == Some(v)
    {
      if VariableNamed(variables, v.name).Some? {
        return false;
      }
      VariableNamedAppend(variables, v, v.name);
      variables := variables + [v];
      ok := true;
    }

    method TryDeclareFunction(f: FunctionSymbol) returns (ok: bool)
      requires Valid() && Distinct()
      modifies this
      ensures Valid() && Distinct()
      ensures ok <==> FunctionNamed(old(functions), f.name).None?
      ensures functions == (if ok then old(functions) + [f] else old(functions))
      ensures variables == old(variables)
      ensures ok ==> TryLookUpFunction(f.name) == Some(f)
    {
      if FunctionNamed(functions, f.name).Some? {
        return false;
      }
      FunctionNamedAppend(functions, f, f.name);
      functions := functions + [f];
      ok := true;
    }

    /** GetDeclaredVariables: this scope's own variables, in the order they
        were declared, never an ancestor's. */
    function GetDeclaredVariables(): (r: seq<VariableSymbol>)
      requires Distinct()
      reads this
      ensures r == variables
      ensures forall i :: 0 <= i < |r| ==> VariableNamed(variables, r[i].name) == Some(r[i])
      ensures |r| == |variables|
    {
      forall i | 0 <= i < |variables| ensures VariableNamed(variables, variables[i].name) == Some(variables[i]) {
        DistinctVariablesFound(variables, i);
      }
      variables
    }

    /** This scope's own functions, in the order they were declared. */
    function GetDeclaredFunctions(): (r: seq<FunctionSymbol>)
      reads this
      ensures r == functions
    {
      functions
    }
  }
}
