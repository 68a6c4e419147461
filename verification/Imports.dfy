/** AsyncPullServiceDefinitionAndImports: the chain of pulls that collects a service definition and
  * everything it imports, directly or not. */
module ServiceImports {
  import opened Results

  type Name = string

  datatype ServiceDefinition = ServiceDefinition(name: Name, imports: seq<Name>)

  /** What a pull returns: the definition, and extra imports that count for the first pull only. */
  datatype PullReturn = PullReturn(def: ServiceDefinition, extraImports: set<Name>)

  function Names(defs: seq<ServiceDefinition>): (s: set<Name>)
    ensures forall n :: n in s <==> exists i :: 0 <= i < |defs| && defs[i].name == n
  {
    set d | d in defs :: d.name
  }

  function AllImports(defs: seq<ServiceDefinition>): (s: set<Name>)
    ensures forall n :: n in s <==> exists i :: 0 <= i < |defs| && n in defs[i].imports
  {
    set d, n | d in defs && n in d.imports :: n
  }

  predicate DistinctNames(defs: seq<ServiceDefinition>)
  {
    forall i, j | 0 <= i < j < |defs| :: defs[i].name != defs[j].name
  }

  class ImportPuller {
    var begun: bool                      // current is not null
    var defs: seq<ServiceDefinition>
    var extraImports: set<Name>

    constructor ()
      ensures !begun && defs == []
    {
      begun, defs, extraImports := false, [], {};
    }

    /** What is imported and has not been pulled. */
    ghost function Missing(): set<Name>
      reads this
    {
      extraImports + AllImports(defs) - Names(defs)
    }

    /** AsyncPullServiceDefinitionAndImports1: takes a definition and names one that is missing. */
    method PullReturned(p: PullReturn) returns (next: Option<Name>)
      requires DistinctNames(defs) && (!begun ==> defs == [])
      modifies this
      ensures begun && DistinctNames(defs)
      ensures defs == if old(begun) && p.def.name in Names(old(defs)) then old(defs) else old(defs) + [p.def]
      ensures extraImports == if old(begun) then old(extraImports) else p.extraImports
      ensures next.None? <==> Missing() == {}
      ensures next.Some? ==> next.value in Missing()
    {
      if !begun {
        begun := true;
        defs := [p.def];
        extraImports := p.extraImports;
      } else if p.def.name !in Names(defs) {
        defs := defs + [p.def];
      }
      var needed := Needed();
      if needed == {} { return None; }
      var n :| n in needed;
      return Some(n);
    }

    /** needed_defs: imports of all definitions, less their names. */
    method Needed() returns (needed: set<Name>)
      ensures needed == Missing()
    {
      needed := extraImports;
      for i := 0 to |defs|
        invariant needed == extraImports + AllImports(defs[..i])
      {
        var imports := set n | n in defs[i].imports;
        assert defs[..i + 1] == defs[..i] + [defs[i]];
        AllImportsAppend(defs[..i], defs[i]);
        needed := needed + imports;
      }
      assert defs[..|defs|] == defs;
      ghost var all := needed;
      for i := 0 to |defs|
        invariant needed == all - Names(defs[..i])
      {
        assert defs[..i + 1] == defs[..i] + [defs[i]];
        NamesAppend(defs[..i], defs[i]);
        needed := needed - {defs[i].name};
      }
    }
  }

  lemma AllImportsAppend(defs: seq<ServiceDefinition>, d: ServiceDefinition)
    ensures AllImports(defs + [d]) == AllImports(defs) + set n | n in d.imports
  {
    var all := defs + [d];
    forall n ensures n in AllImports(all) <==> n in AllImports(defs) || n in d.imports {
      if n in AllImports(defs) {
        var i :| 0 <= i < |defs| && n in defs[i].imports;
        assert all[i] == defs[i];
      }
      if n in d.imports { assert all[|defs|] == d; }
    }
  }

  lemma NamesAppend(defs: seq<ServiceDefinition>, d: ServiceDefinition)
    ensures Names(defs + [d]) == Names(defs) + {d.name}
  {
    var all := defs + [d];
    forall n ensures n in Names(all) <==> n in Names(defs) || n == d.name {
      if n in Names(defs) {
        var i :| 0 <= i < |defs| && defs[i].name == n;
        assert all[i] == defs[i];
      }
      assert all[|defs|] == d;
    }
  }

  // ---------------------------------------------------------------- the whole chain

  /** A remote service: every pull returns the definition asked for. */
  ghost predicate Honest(pull: Name -> PullReturn)
  {
    forall n :: pull(n).def.name == n
  }

  /** s holds the root, its extra imports, and with each definition what that imports. */
  ghost predicate Closed(s: set<Name>, root: Name, pull: Name -> PullReturn)
  {
    && root in s && pull(root).extraImports <= s
    && forall n, m | n in s && m in pull(n).def.imports :: m in s
  }

  /** Import closure: over any finite import graph, cyclic or not, the chain ends, and the
    * definitions pulled are, each once, the least set closed under imports. */
  method PullAll(root: Name, pull: Name -> PullReturn, ghost universe: set<Name>) returns (defs: seq<ServiceDefinition>)
    requires Honest(pull) && Closed(universe, root, pull)
    ensures DistinctNames(defs) && forall d | d in defs :: d == pull(d.name).def
    ensures Closed(Names(defs), root, pull)
    ensures forall s | Closed(s, root, pull) :: Names(defs) <= s
  {
    hide AllImports, Names, Left;
    var puller := new ImportPuller();
    var next := puller.PullReturned(pull(root));
    FirstPull(root, pull, puller.defs);
    while next.Some?
      invariant puller.begun && Pulling(puller.defs, root, pull) && puller.extraImports == pull(root).extraImports
      invariant next.None? <==> puller.Missing() == {}
      invariant next.Some? ==> next.value in puller.Missing()
      decreases Left(universe, Names(puller.defs))
    {
      ghost var before := puller.defs;
      NextPull(before, next.value, root, pull, universe);
      next := puller.PullReturned(pull(next.value));
    }
    defs := puller.defs;
    Complete(defs, root, pull);
  }

  /** So far: definitions of the service, each once, the root among them, and none beyond any closed set. */
  ghost predicate Pulling(defs: seq<ServiceDefinition>, root: Name, pull: Name -> PullReturn)
  {
    && DistinctNames(defs) && (forall d | d in defs :: d == pull(d.name).def)
    && root in Names(defs)
    && forall s | Closed(s, root, pull) :: Names(defs) <= s
  }

  lemma FirstPull(root: Name, pull: Name -> PullReturn, defs: seq<ServiceDefinition>)
    requires Honest(pull) && defs == [pull(root).def]
    ensures Pulling(defs, root, pull)
  {
    assert defs[0].name == root;
  }

  ghost function Left(universe: set<Name>, pulled: set<Name>): nat { |universe - pulled| }

  lemma FewerLeft(universe: set<Name>, a: set<Name>, n: Name)
    requires n in universe && n !in a
    ensures Left(universe, a + {n}) < Left(universe, a)
  {
    assert universe - (a + {n}) == (universe - a) - {n};
  }

  lemma AppendDistinct(defs: seq<ServiceDefinition>, d: ServiceDefinition)
    requires DistinctNames(defs) && d.name !in Names(defs)
    ensures DistinctNames(defs + [d])
  {
    forall i | 0 <= i < |defs| ensures defs[i].name in Names(defs) {}
  }

  /** A missing definition belongs to every closed set. */
  lemma MissingNeeded(defs: seq<ServiceDefinition>, n: Name, root: Name, pull: Name -> PullReturn, s: set<Name>)
    requires Pulling(defs, root, pull) && Closed(s, root, pull)
    requires n in pull(root).extraImports + AllImports(defs) - Names(defs)
    ensures n in s && Names(defs) <= s
  {
    if n !in pull(root).extraImports {
      var i :| 0 <= i < |defs| && n in defs[i].imports;
      assert defs[i] in defs && defs[i].name in Names(defs);
    }
  }

  lemma NextPull(defs: seq<ServiceDefinition>, n: Name, root: Name, pull: Name -> PullReturn, universe: set<Name>)
    requires Honest(pull) && Closed(universe, root, pull) && Pulling(defs, root, pull)
    requires n in pull(root).extraImports + AllImports(defs) - Names(defs)
    ensures Pulling(defs + [pull(n).def], root, pull)
    ensures Left(universe, Names(defs + [pull(n).def])) < Left(universe, Names(defs))
  {
    hide Names, AllImports, DistinctNames, Closed, Left;
    NamesAppend(defs, pull(n).def);
    AppendDistinct(defs, pull(n).def);
    forall s | Closed(s, root, pull) ensures Names(defs + [pull(n).def]) <= s {
      MissingNeeded(defs, n, root, pull, s);
    }
    MissingNeeded(defs, n, root, pull, universe);
    FewerLeft(universe, Names(defs), n);
  }

  lemma Complete(defs: seq<ServiceDefinition>, root: Name, pull: Name -> PullReturn)
    requires Pulling(defs, root, pull) && pull(root).extraImports + AllImports(defs) - Names(defs) == {}
    ensures Closed(Names(defs), root, pull)
  {
    forall n, m | n in Names(defs) && m in pull(n).def.imports ensures m in Names(defs) {
      var i :| 0 <= i < |defs| && defs[i].name == n;
      assert defs[i] in defs && m in AllImports(defs);
      assert m !in pull(root).extraImports + AllImports(defs) - Names(defs);
    }
    forall m | m in pull(root).extraImports ensures m in Names(defs) {
      assert m !in pull(root).extraImports + AllImports(defs) - Names(defs);
    }
  }
}
