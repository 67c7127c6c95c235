/**
 Collecting the definitions a traceback leads to: a worklist in each module, recursion into
 the modules it imports, and one shared set of visited definitions
 (app/agent/context.py:819-1077). Modules are given as their top-level definitions, the
 names these load and the attributes they take, and their imports.
 */
module StaticClosure {
  import opened Wrappers
  import opened Sorting

  datatype Key = Key(path: string, name: string)

  /** A top-level definition: what `_loaded_unbound_names` finds in it, and its `name.attribute` uses. */
  datatype Definition = Definition(line: nat, references: set<string>, attributes: set<(string, string)>)

  datatype Alias = Alias(name: string, bound: string)
  datatype ModuleAlias = ModuleAlias(bound: string, target: Option<string>)

  /** An import, its module resolved to a path of the repository where `_module_path` finds one. */
  datatype ImportNode = FromImport(target: Option<string>, aliases: seq<Alias>) | PlainImport(modules: seq<ModuleAlias>)

  datatype Module =
    | Unreadable
    | Unparsable
    | Module(definitions: map<string, Definition>, imports: seq<ImportNode>)

  type Repository = map<string, Module>

  // ---------------------------------------------------------------- references

  predicate Defined(repository: Repository, key: Key) {
    key.path in repository && repository[key.path].Module? && key.name in repository[key.path].definitions
  }

  function DefinitionOf(repository: Repository, key: Key): Definition
    requires Defined(repository, key)
  {
    repository[key.path].definitions[key.name]
  }

  /** The import leads to the other when one definition loads the name it binds and one takes the attribute. */
  predicate Joins(node: ImportNode, loading: Definition, taking: Definition, other: Key) {
    match node
    case FromImport(target, aliases) =>
      && target == Some(other.path)
      && other.name != "*"
      && exists i :: 0 <= i < |aliases| && aliases[i].name == other.name && aliases[i].bound in loading.references
    case PlainImport(modules) =>
      exists i :: 0 <= i < |modules| && modules[i].target == Some(other.path)
        && modules[i].bound in loading.references && (modules[i].bound, other.name) in taking.attributes
  }

  /** The definition by itself leads to the other through this import. */
  predicate Leads(node: ImportNode, definition: Definition, other: Key) {
    Joins(node, definition, definition, other)
  }

  predicate LeadsThroughImport(imports: seq<ImportNode>, definition: Definition, other: Key) {
    exists i :: 0 <= i < |imports| && Leads(imports[i], definition, other)
  }

  /** The first definition names the second, in its own module or through an import. */
  predicate Edge(repository: Repository, key: Key, other: Key) {
    && Defined(repository, key)
    && Defined(repository, other)
    && (|| (key.path == other.path && other.name in DefinitionOf(repository, key).references)
        || LeadsThroughImport(repository[key.path].imports, DefinitionOf(repository, key), other))
  }

  predicate Chain(repository: Repository, chain: seq<Key>) {
    chain != [] && forall i :: 0 <= i < |chain| - 1 ==> Edge(repository, chain[i], chain[i + 1])
  }

  predicate Root(repository: Repository, path: string, names: set<string>, key: Key) {
    key.path == path && key.name in names && Defined(repository, key)
  }

  /** Some chain of references runs from a requested name to the definition. */
  ghost predicate Reachable(repository: Repository, path: string, names: set<string>, key: Key) {
    exists chain :: Chain(repository, chain) && Root(repository, path, names, chain[0]) && chain[|chain| - 1] == key
  }

  // ---------------------------------------------------------------- what two definitions lead to together

  /** Through an import of their module the two definitions together lead to the other. */
  predicate JointEdge(repository: Repository, loading: Key, taking: Key, other: Key) {
    && Defined(repository, loading) && Defined(repository, taking) && Defined(repository, other)
    && loading.path == taking.path
    && exists i :: 0 <= i < |repository[loading.path].imports|
         && Joins(repository[loading.path].imports[i], DefinitionOf(repository, loading), DefinitionOf(repository, taking), other)
  }

  /** Nothing in the set leads out of it. */
  ghost predicate Closed(repository: Repository, keys: iset<Key>) {
    forall key, other :: key in keys && Edge(repository, key, other) ==> other in keys
  }

  /** No two definitions in the set lead out of it together. */
  ghost predicate JointlyClosed(repository: Repository, keys: iset<Key>) {
    && Closed(repository, keys)
    && forall loading, taking, other :: loading in keys && taking in keys && JointEdge(repository, loading, taking, other) ==> other in keys
  }

  ghost predicate HoldsRoots(repository: Repository, path: string, names: set<string>, keys: iset<Key>) {
    forall name :: name in names && Defined(repository, Key(path, name)) ==> Key(path, name) in keys
  }

  /** In every jointly closed set that holds the requested definitions. */
  ghost predicate JointlyReachable(repository: Repository, path: string, names: set<string>, key: Key) {
    forall keys: iset<Key> :: JointlyClosed(repository, keys) && HoldsRoots(repository, path, names, keys) ==> key in keys
  }

  /** An attribute taken leads to the module its name is bound to, whoever loads the name. */
  predicate LooseEdge(repository: Repository, key: Key, other: Key) {
    || Edge(repository, key, other)
    || (&& Defined(repository, key) && Defined(repository, other)
        && exists i, k :: 0 <= i < |repository[key.path].imports| && repository[key.path].imports[i].PlainImport?
             && 0 <= k < |repository[key.path].imports[i].modules|
             && repository[key.path].imports[i].modules[k].target == Some(other.path)
             && (repository[key.path].imports[i].modules[k].bound, other.name) in DefinitionOf(repository, key).attributes)
  }

  predicate LooseChain(repository: Repository, chain: seq<Key>) {
    chain != [] && forall i :: 0 <= i < |chain| - 1 ==> LooseEdge(repository, chain[i], chain[i + 1])
  }

  ghost predicate LooselyReachable(repository: Repository, path: string, names: set<string>, key: Key) {
    exists chain :: LooseChain(repository, chain) && Root(repository, path, names, chain[0]) && chain[|chain| - 1] == key
  }

  /** The module binds the name to a module of the repository, by a plain import. */
  predicate BindsModule(repository: Repository, path: string, bound: string)
    requires path in repository && repository[path].Module?
  {
    exists i, k :: 0 <= i < |repository[path].imports| && repository[path].imports[i].PlainImport?
      && 0 <= k < |repository[path].imports[i].modules|
      && repository[path].imports[i].modules[k].bound == bound && repository[path].imports[i].modules[k].target.Some?
  }

  /** No definition takes an attribute of a module's name that it binds itself. */
  predicate Unshadowed(repository: Repository) {
    forall path :: path in repository && repository[path].Module? ==>
      forall name :: name in repository[path].definitions ==>
        forall use :: use in repository[path].definitions[name].attributes && BindsModule(repository, path, use.0)
          ==> use.0 in repository[path].definitions[name].references
  }

  /** No plain import finds a module of the repository. */
  predicate OnlyFromImports(repository: Repository) {
    forall path :: path in repository && repository[path].Module? ==>
      forall node :: node in repository[path].imports && node.PlainImport? ==>
        forall alias :: alias in node.modules ==> alias.target.None?
  }

  /** The first definition names the second in the module at this path. */
  predicate LocalEdge(repository: Repository, path: string, key: Key, other: Key) {
    Defined(repository, key) && Defined(repository, other) && other.path == path && other.name in DefinitionOf(repository, key).references
  }

  predicate LocalChain(repository: Repository, path: string, chain: seq<Key>) {
    chain != [] && forall i :: 0 <= i < |chain| - 1 ==> LocalEdge(repository, path, chain[i], chain[i + 1])
  }

  /** In the first batch: named by a requested definition through its own module alone. */
  ghost predicate FirstBatch(repository: Repository, path: string, names: set<string>, key: Key) {
    exists chain :: LocalChain(repository, path, chain) && Root(repository, path, names, chain[0]) && chain[|chain| - 1] == key
  }

  function Definitions(repository: Repository): set<Key> {
    set path, name | path in repository && repository[path].Module? && name in repository[path].definitions :: Key(path, name)
  }

  lemma DefinedIsMember(repository: Repository, key: Key)
    ensures Defined(repository, key) <==> key in Definitions(repository)
  {
    assert key == Key(key.path, key.name);
  }

  // ---------------------------------------------------------------- least names

  lemma {:induction false} LeastExists(names: set<string>) returns (least: string)
    requires names != {}
    ensures least in names && forall other :: other in names ==> StringLeq(least, other)
    decreases |names|
  {
    least :| least in names;
    var rest := names - {least};
    if rest == {} {
      forall other | other in names ensures StringLeq(least, other) {
        StringReflexive(least);
        assert other == least || other in rest;
      }
    } else {
      var next := LeastExists(rest);
      StringTotal(least, next);
      var first := least;
      if StringLeq(next, first) {
        least := next;
      }
      forall other | other in names ensures StringLeq(least, other) {
        assert other == first || other in rest;
        StringReflexive(first);
        if other != first {
          StringTransitive(least, next, other);
        }
      }
    }
  }

  /** `min(names)`. */
  method Least(names: set<string>) returns (least: string)
    requires names != {}
    ensures least in names && forall other :: other in names ==> StringLeq(least, other)
  {
    ghost var _ := LeastExists(names);
    least :| least in names && forall other :: other in names ==> StringLeq(least, other);
  }

  // ---------------------------------------------------------------- collecting

  predicate AllDefined(repository: Repository, nodes: seq<Key>) {
    forall node :: node in nodes ==> Defined(repository, node)
  }

  /** Names the definitions load, `{child for node in nodes for child in ...}`. */
  function Referenced(repository: Repository, nodes: seq<Key>): set<string>
    requires AllDefined(repository, nodes)
  {
    set node, child | node in nodes && child in DefinitionOf(repository, node).references :: child
  }

  function AttributesOf(repository: Repository, nodes: seq<Key>, bound: string): set<string>
    requires AllDefined(repository, nodes)
  {
    set node, use | node in nodes && use in DefinitionOf(repository, node).attributes && use.0 == bound :: use.1
  }

  function BoundNames(node: ImportNode): set<string> {
    match node
    case FromImport(_, aliases) => set alias | alias in aliases && alias.name != "*" :: alias.bound
    case PlainImport(modules) => set alias | alias in modules :: alias.bound
  }

  /** The names to look for in each module an import leads to. */
  function Wanted(targets: map<string, set<string>>, path: string): set<string> {
    if path in targets then targets[path] else {}
  }

  /** `targets.setdefault(path, set()).update(names)`. */
  function Extended(targets: map<string, set<string>>, path: string, names: set<string>): map<string, set<string>> {
    targets[path := Wanted(targets, path) + names]
  }

  /** Some definitions among these lead to the other through this import. */
  predicate BatchLeads(repository: Repository, node: ImportNode, nodes: seq<Key>, other: Key)
    requires AllDefined(repository, nodes)
  {
    exists j, k :: 0 <= j < |nodes| && 0 <= k < |nodes|
      && Joins(node, DefinitionOf(repository, nodes[j]), DefinitionOf(repository, nodes[k]), other)
  }

  /** One of the aliases asks for this name of the module. */
  predicate FromWants(target: string, aliases: seq<Alias>, referenced: set<string>, path: string, name: string) {
    path == target && name != "*" && exists i :: 0 <= i < |aliases| && aliases[i].name == name && aliases[i].bound in referenced
  }

  predicate ModuleWants(alias: ModuleAlias, referenced: set<string>, repository: Repository, nodes: seq<Key>,
      path: string, name: string)
    requires AllDefined(repository, nodes)
  {
    alias.target == Some(path) && alias.bound in referenced && name in AttributesOf(repository, nodes, alias.bound)
  }

  predicate PlainWants(modules: seq<ModuleAlias>, referenced: set<string>, repository: Repository, nodes: seq<Key>,
      path: string, name: string)
    requires AllDefined(repository, nodes)
  {
    exists i :: 0 <= i < |modules| && ModuleWants(modules[i], referenced, repository, nodes, path, name)
  }

  /** The targets of `_follow_local_import` for `from ... import ...`. */
  method FromTargets(target: string, aliases: seq<Alias>,
      referenced: set<string>) returns (targets: map<string, set<string>>)
    ensures forall path, name :: name in Wanted(targets, path) <==> FromWants(target, aliases, referenced, path, name)
  {
    targets := map[];
    for i := 0 to |aliases|
      invariant forall path, name :: name in Wanted(targets, path) <==> FromWants(target, aliases[..i], referenced, path, name)
    {
      var alias := aliases[i];
      ghost var before := targets;
      if alias.name != "*" && alias.bound in referenced {
        targets := Extended(targets, target, {alias.name});
      }
      forall path, name ensures name in Wanted(targets, path) <==> FromWants(target, aliases[..i + 1], referenced, path, name) {
        FromWantsLast(target, aliases, referenced, path, name, i);
        assert name in Wanted(before, path) <==> FromWants(target, aliases[..i], referenced, path, name);
      }
    }
    assert aliases[..|aliases|] == aliases;
  }

  lemma FromWantsLast(target: string, aliases: seq<Alias>, referenced: set<string>, path: string, name: string, i: nat)
    requires i < |aliases|
    ensures FromWants(target, aliases[..i + 1], referenced, path, name) <==>
              FromWants(target, aliases[..i], referenced, path, name)
              || (path == target && name != "*" && aliases[i].name == name && aliases[i].bound in referenced)
  {
    var after := aliases[..i + 1];
    assert after[i] == aliases[i];
    assert forall j :: 0 <= j < i ==> after[j] == aliases[..i][j];
  }

  /** The targets for `import ...`: the attributes the selected definitions take of it. */
  method PlainTargets(modules: seq<ModuleAlias>, referenced: set<string>, repository: Repository, nodes: seq<Key>)
      returns (targets: map<string, set<string>>)
    requires AllDefined(repository, nodes)
    ensures forall path, name :: name in Wanted(targets, path) <==> PlainWants(modules, referenced, repository, nodes, path, name)
  {
    targets := map[];
    for i := 0 to |modules|
      invariant forall path, name ::
        name in Wanted(targets, path) <==> PlainWants(modules[..i], referenced, repository, nodes, path, name)
    {
      var alias := modules[i];
      ghost var before := targets;
      if alias.bound in referenced && alias.target.Some? {
        var attributes := AttributesOf(repository, nodes, alias.bound);
        if attributes != {} {
          targets := Extended(targets, alias.target.value, attributes);
        }
      }
      forall path, name
        ensures name in Wanted(targets, path) <==> PlainWants(modules[..i + 1], referenced, repository, nodes, path, name)
      {
        PlainWantsLast(modules, referenced, repository, nodes, path, name, i);
        assert name in Wanted(before, path) <==> PlainWants(modules[..i], referenced, repository, nodes, path, name);
      }
    }
    assert modules[..|modules|] == modules;
  }

  lemma PlainWantsLast(modules: seq<ModuleAlias>, referenced: set<string>, repository: Repository,
      nodes: seq<Key>, path: string, name: string, i: nat)
    requires i < |modules| && AllDefined(repository, nodes)
    ensures PlainWants(modules[..i + 1], referenced, repository, nodes, path, name) <==>
              PlainWants(modules[..i], referenced, repository, nodes, path, name)
              || ModuleWants(modules[i], referenced, repository, nodes, path, name)
  {
    hide ModuleWants;
    var after := modules[..i + 1];
    assert after[i] == modules[i];
    assert forall j :: 0 <= j < i ==> after[j] == modules[..i][j];
  }

  /** A plain import is followed to exactly what selected definitions lead to together. */
  lemma PlainWantsAreLeads(repository: Repository, modules: seq<ModuleAlias>, nodes: seq<Key>, other: Key)
    requires AllDefined(repository, nodes)
    ensures PlainWants(modules, Referenced(repository, nodes), repository, nodes, other.path, other.name)
        <==> BatchLeads(repository, PlainImport(modules), nodes, other)
  {
    hide ModuleWants, Joins;
    var referenced, plain := Referenced(repository, nodes), PlainImport(modules);
    if PlainWants(modules, referenced, repository, nodes, other.path, other.name) {
      var i :| 0 <= i < |modules| && ModuleWants(modules[i], referenced, repository, nodes, other.path, other.name);
      WantedIsLed(repository, modules, nodes, other, i);
    }
    if BatchLeads(repository, plain, nodes, other) {
      var j, k :| 0 <= j < |nodes| && 0 <= k < |nodes|
        && Joins(plain, DefinitionOf(repository, nodes[j]), DefinitionOf(repository, nodes[k]), other);
      LedIsWanted(repository, modules, nodes, other, j, k);
    }
  }

  lemma WantedIsLed(repository: Repository, modules: seq<ModuleAlias>, nodes: seq<Key>, other: Key, i: nat)
    requires AllDefined(repository, nodes) && i < |modules|
    requires ModuleWants(modules[i], Referenced(repository, nodes), repository, nodes, other.path, other.name)
    ensures BatchLeads(repository, PlainImport(modules), nodes, other)
  {
    var loading :| loading in nodes && modules[i].bound in DefinitionOf(repository, loading).references;
    var taking, use :| taking in nodes && use in DefinitionOf(repository, taking).attributes && use.0 == modules[i].bound
      && use.1 == other.name;
    assert use == (modules[i].bound, other.name);
    var j :| 0 <= j < |nodes| && nodes[j] == loading;
    var k :| 0 <= k < |nodes| && nodes[k] == taking;
    assert Joins(PlainImport(modules), DefinitionOf(repository, nodes[j]), DefinitionOf(repository, nodes[k]), other);
  }

  lemma LedIsWanted(repository: Repository, modules: seq<ModuleAlias>, nodes: seq<Key>, other: Key, j: nat, k: nat)
    requires AllDefined(repository, nodes) && j < |nodes| && k < |nodes|
    requires Joins(PlainImport(modules), DefinitionOf(repository, nodes[j]), DefinitionOf(repository, nodes[k]), other)
    ensures PlainWants(modules, Referenced(repository, nodes), repository, nodes, other.path, other.name)
  {
    hide BatchLeads;
    var i :| 0 <= i < |modules| && modules[i].target == Some(other.path)
      && modules[i].bound in DefinitionOf(repository, nodes[j]).references
      && (modules[i].bound, other.name) in DefinitionOf(repository, nodes[k]).attributes;
    var use := (modules[i].bound, other.name);
    assert nodes[j] in nodes && nodes[k] in nodes && use.0 == modules[i].bound;
    assert use.1 in AttributesOf(repository, nodes, modules[i].bound);
    assert ModuleWants(modules[i], Referenced(repository, nodes), repository, nodes, other.path, other.name);
  }

  lemma FromWantsAreLeads(repository: Repository, target: string, aliases: seq<Alias>, nodes: seq<Key>, other: Key)
    requires AllDefined(repository, nodes)
    ensures FromWants(target, aliases, Referenced(repository, nodes), other.path, other.name)
        <==> BatchLeads(repository, FromImport(Some(target), aliases), nodes, other)
  {
    var fromNode := FromImport(Some(target), aliases);
    if FromWants(target, aliases, Referenced(repository, nodes), other.path, other.name) {
      var i :| 0 <= i < |aliases| && aliases[i].name == other.name && aliases[i].bound in Referenced(repository, nodes);
      var node :| node in nodes && aliases[i].bound in DefinitionOf(repository, node).references;
      var k :| 0 <= k < |nodes| && nodes[k] == node;
      assert Joins(fromNode, DefinitionOf(repository, nodes[k]), DefinitionOf(repository, nodes[k]), other);
    }
    if BatchLeads(repository, fromNode, nodes, other) {
      var j, k :| 0 <= j < |nodes| && 0 <= k < |nodes|
        && Joins(fromNode, DefinitionOf(repository, nodes[j]), DefinitionOf(repository, nodes[k]), other);
      assert nodes[j] in nodes;
    }
  }

  /** An import that leads somewhere binds a name that is loaded. */
  lemma LeadingImportIsBound(repository: Repository, node: ImportNode, nodes: seq<Key>, other: Key)
    requires AllDefined(repository, nodes) && BatchLeads(repository, node, nodes, other)
    ensures BoundNames(node) * Referenced(repository, nodes) != {}
  {
    var j, k :| 0 <= j < |nodes| && 0 <= k < |nodes|
      && Joins(node, DefinitionOf(repository, nodes[j]), DefinitionOf(repository, nodes[k]), other);
    assert nodes[j] in nodes;
    var bound :| bound in BoundNames(node) && bound in DefinitionOf(repository, nodes[j]).references;
    assert bound in BoundNames(node) * Referenced(repository, nodes);
  }

  // ---------------------------------------------------------------- the collector

  class Collector {
    const repository: Repository
    var visited: set<Key>
    var collected: seq<Key>

    constructor (repository: Repository)
      ensures this.repository == repository && visited == {} && collected == []
    {
      this.repository := repository;
      visited, collected := {}, [];
    }

    /** Visited definitions are collected once each, `pending` ones still to be. */
    ghost predicate Valid(pending: seq<Key>)
      reads this
    {
      visited <= Definitions(repository) && multiset(collected) + multiset(pending) == multiset(visited)
    }

    function Unvisited(): nat
      reads `visited
    {
      |Definitions(repository) - visited|
    }

    /** What was visited since has been followed. */
    ghost predicate Followed(before: set<Key>)
      reads this
    {
      forall key, other :: key in visited && key !in before && Edge(repository, key, other) ==> other in visited
    }

    /** Only more of what the goal allows. */
    ghost predicate Grown(before: set<Key>, goal: iset<Key>)
      reads this
    {
      before <= visited && forall key :: key in visited && key !in before ==> key in goal
    }

    method Visit(key: Key, ghost pending: seq<Key>)
      requires Valid(pending) && Defined(repository, key) && key !in visited
      modifies `visited
      ensures visited == old(visited) + {key} && Valid(pending + [key]) && Unvisited() < old(Unvisited())
    {
      DefinedIsMember(repository, key);
      visited := visited + {key};
      assert Definitions(repository) - visited < Definitions(repository) - old(visited);
      SmallerSet(Definitions(repository) - visited, Definitions(repository) - old(visited));
      assert multiset(pending + [key]) == multiset(pending) + multiset{key};
      assert multiset(visited) == multiset(old(visited)) + multiset{key};
    }

    /** The requested top-level definitions not met before. */
    method Select(path: string, requested: set<string>, ghost goal: iset<Key>) returns (selected: seq<Key>)
      requires Valid([]) && path in repository && repository[path].Module?
      requires forall name :: name in requested && Defined(repository, Key(path, name)) ==> Key(path, name) in goal
      modifies `visited
      ensures Valid(selected) && AllDefined(repository, selected) && Grown(old(visited), goal)
      ensures forall key :: key in selected ==> key.path == path
      ensures forall key :: key in visited && key !in old(visited) <==> key in selected
      ensures forall name :: name in requested && Defined(repository, Key(path, name)) ==> Key(path, name) in visited
      ensures Unvisited() <= old(Unvisited()) && (selected != [] ==> Unvisited() < old(Unvisited()))
    {
      selected := [];
      var left := requested;
      while left != {}
        invariant left <= requested
        invariant Valid(selected) && AllDefined(repository, selected) && Grown(old(visited), goal)
        invariant forall key :: key in selected ==> key.path == path
        invariant forall key :: key in visited && key !in old(visited) <==> key in selected
        invariant forall name :: name in requested - left && Defined(repository, Key(path, name)) ==> Key(path, name) in visited
        invariant Unvisited() <= old(Unvisited()) && (selected != [] ==> Unvisited() < old(Unvisited()))
        decreases |left|
      {
        var name := Least(left);
        left := left - {name};
        var key := Key(path, name);
        if Defined(repository, key) && key !in visited {
          Visit(key, selected);
          selected := selected + [key];
        }
      }
    }

    /** The definitions of the module that the selected ones lead to, by name, least first. */
    method Complete(path: string, initial: seq<Key>, ghost before: set<Key>,
        ghost goal: iset<Key>) returns (selected: seq<Key>)
      requires Valid(initial) && path in repository && repository[path].Module?
      requires AllDefined(repository, initial) && Grown(before, goal) && Closed(repository, goal)
      requires forall key :: key in initial ==> key.path == path
      requires forall key :: key in visited && key !in before <==> key in initial
      modifies `visited
      ensures Valid(selected) && AllDefined(repository, selected) && Grown(before, goal)
      ensures old(visited) <= visited && initial <= selected && (initial == [] ==> selected == [])
      ensures forall key :: key in selected ==> key.path == path
      ensures forall key :: key in visited && key !in before <==> key in selected
      ensures forall name :: name in Referenced(repository, selected) && Defined(repository, Key(path, name)) ==> Key(path, name) in visited
      ensures Unvisited() <= old(Unvisited())
    {
      hide Edge, Closed, Referenced, Valid, Unvisited, Defined, Leads, StringLeq;
      selected := initial;
      NothingReferenced(repository);
      var pending := Referenced(repository, selected);
      while pending != {}
        invariant Valid(selected) && AllDefined(repository, selected) && Grown(before, goal)
        invariant old(visited) <= visited && initial <= selected && (initial == [] ==> selected == [] && pending == {})
        invariant forall key :: key in selected ==> key.path == path
        invariant forall key :: key in visited && key !in before <==> key in selected
        invariant pending <= Referenced(repository, selected)
        invariant forall name :: name in Referenced(repository, selected) && name !in pending && Defined(repository, Key(path, name))
                    ==> Key(path, name) in visited
        invariant Unvisited() <= old(Unvisited())
        decreases Unvisited(), |pending|
      {
        var name := Least(pending);
        pending := pending - {name};
        var key := Key(path, name);
        if Defined(repository, key) && key !in visited {
          ReferencedIsReached(selected, path, name, goal);
          Visit(key, selected);
          ReferencedLast(repository, selected, key);
          selected := selected + [key];
          pending := pending + DefinitionOf(repository, key).references;
        }
      }
    }

    /** What is selected in one module at a time: the requested definitions, closed under local names, and
        what any two of them lead to together. */
    ghost predicate Batch(path: string, requested: set<string>, before: set<Key>, batch: seq<Key>)
      reads this
      requires path in repository && repository[path].Module?
    {
      && AllDefined(repository, batch) && (forall key :: key in batch ==> key.path == path)
      && (forall name :: name in requested && Defined(repository, Key(path, name)) ==> Key(path, name) in batch || Key(path, name) in before)
      && (forall name :: name in Referenced(repository, batch) && Defined(repository, Key(path, name))
            ==> Key(path, name) in batch || Key(path, name) in before)
      && forall other, j :: Defined(repository, other) && 0 <= j < |repository[path].imports| ==>
           BatchLeads(repository, repository[path].imports[j], batch, other) ==> other in visited
    }

    /** `_collect_static_items` for requested names. */
    method Collect(path: string, requested: set<string>, ghost goal: iset<Key>) returns (ghost selection: seq<Key>)
      requires Valid([]) && path in repository && JointlyClosed(repository, goal)
      requires HoldsRoots(repository, path, requested, goal)
      modifies this
      ensures Valid([]) && Grown(old(visited), goal) && Followed(old(visited)) && Unvisited() <= old(Unvisited())
      ensures repository[path].Module? ==> Batch(path, requested, old(visited), selection)
      ensures forall name :: name in requested && Defined(repository, Key(path, name)) ==> Key(path, name) in visited
      decreases Unvisited(), 0
    {
      hide Edge, Closed, Referenced, Unvisited, Defined, Leads, BatchLeads, StringLeq, Sort;
      if !repository[path].Module? {
        UndefinedThere(repository, path);
        return [];
      }
      var selected := Select(path, requested, goal);
      selected := Complete(path, selected, old(visited), goal);
      var nodes := Sort(selected, (a, b) => LineOf(repository, a) <= LineOf(repository, b));
      SameMembers(selected, nodes);
      SameReferences(repository, selected, nodes);
      collected, selection := collected + nodes, nodes;
      var imports := repository[path].imports;
      ghost var batch := visited;
      for i := 0 to |imports|
        invariant Valid([]) && Grown(old(visited), goal) && batch <= visited && Followed(batch)
        invariant Unvisited() <= old(Unvisited()) && (nodes != [] ==> Unvisited() < old(Unvisited()))
        invariant forall j, other ::
          0 <= j < i && Defined(repository, other) && BatchLeads(repository, imports[j], nodes, other) ==> other in visited
      {
        forall other | BatchLeads(repository, imports[i], nodes, other)
          ensures BoundNames(imports[i]) * Referenced(repository, nodes) != {}
        {
          LeadingImportIsBound(repository, imports[i], nodes, other);
        }
        if BoundNames(imports[i]) * Referenced(repository, nodes) != {} {
          if nodes == [] {
            NothingReferenced(repository);
          }
          forall other | Defined(repository, other) && BatchLeads(repository, imports[i], nodes, other) ensures other in goal {
            BatchIsJoint(repository, imports, i, nodes, path, other, goal);
          }
          Follow(imports[i], nodes, goal);
        }
      }
      forall key, other | key in visited && key !in old(visited) && Edge(repository, key, other) ensures other in visited {
        if key in batch {
          EdgeIsCovered(repository, nodes, path, key, other);
        }
      }
    }

    /** `_follow_local_import`. */
    method Follow(node: ImportNode, nodes: seq<Key>, ghost goal: iset<Key>)
      requires Valid([]) && AllDefined(repository, nodes) && JointlyClosed(repository, goal)
      requires forall other :: Defined(repository, other) && BatchLeads(repository, node, nodes, other) ==> other in goal
      modifies this
      ensures Valid([]) && Grown(old(visited), goal) && Followed(old(visited)) && Unvisited() <= old(Unvisited())
      ensures forall other :: Defined(repository, other) && BatchLeads(repository, node, nodes, other) ==> other in visited
      decreases Unvisited(), 1
    {
      hide Edge, Closed, Referenced, Unvisited, Leads, StringLeq, Valid, FromWants, PlainWants;
      var targets: map<string, set<string>>;
      match node {
        case FromImport(None, _) =>
          NoTargetLeadsNowhere(repository, node, nodes);
          return;
        case FromImport(Some(target), aliases) =>
          targets := FromTargets(target, aliases, Referenced(repository, nodes));
          forall other: Key ensures Finds(targets, node, nodes, other) {
            FromWantsAreLeads(repository, target, aliases, nodes, other);
          }
        case PlainImport(modules) =>
          targets := PlainTargets(modules, Referenced(repository, nodes), repository, nodes);
          forall other: Key ensures Finds(targets, node, nodes, other) {
            PlainWantsAreLeads(repository, modules, nodes, other);
          }
      }
      FollowTargets(node, nodes, targets, goal);
    }

    /** The targets are exactly what the import leads to. */
    predicate Finds(targets: map<string, set<string>>, node: ImportNode, nodes: seq<Key>, other: Key)
      requires AllDefined(repository, nodes)
    {
      BatchLeads(repository, node, nodes, other) <==> other.name in Wanted(targets, other.path)
    }

    /** The modules an import leads to, in order. */
    method FollowTargets(ghost node: ImportNode, ghost nodes: seq<Key>, targets: map<string, set<string>>,
        ghost goal: iset<Key>)
      requires Valid([]) && AllDefined(repository, nodes) && JointlyClosed(repository, goal)
      requires forall other :: Finds(targets, node, nodes, other)
      requires forall other :: Defined(repository, other) && BatchLeads(repository, node, nodes, other) ==> other in goal
      modifies this
      ensures Valid([]) && Grown(old(visited), goal) && Followed(old(visited)) && Unvisited() <= old(Unvisited())
      ensures forall other :: Defined(repository, other) && BatchLeads(repository, node, nodes, other) ==> other in visited
      decreases Unvisited(), 1, 0
    {
      hide Edge, Closed, Unvisited, StringLeq, Valid, BatchLeads;
      forall other | BatchLeads(repository, node, nodes, other) ensures other.name in Wanted(targets, other.path) {
        assert Finds(targets, node, nodes, other);
      }
      var left := targets.Keys;
      while left != {}
        invariant left <= targets.Keys
        invariant Valid([]) && Grown(old(visited), goal) && Followed(old(visited)) && Unvisited() <= old(Unvisited())
        invariant forall other ::
          Defined(repository, other) && other.path in targets.Keys - left && BatchLeads(repository, node, nodes, other)
          ==> other in visited
        decreases |left|
      {
        var path := Least(left);
        left := left - {path};
        if path in repository && !repository[path].Unreadable? {
          forall name | name in targets[path] && Defined(repository, Key(path, name)) ensures Key(path, name) in goal {
            assert Key(path, name).name in Wanted(targets, Key(path, name).path);
            assert Finds(targets, node, nodes, Key(path, name));
          }
          ghost var _ := Collect(path, targets[path], goal);
        }
      }
    }

    lemma ReferencedIsReached(selected: seq<Key>, path: string, name: string, goal: iset<Key>)
      requires AllDefined(repository, selected) && Closed(repository, goal)
      requires forall key :: key in selected ==> key.path == path && key in goal
      requires name in Referenced(repository, selected) && Defined(repository, Key(path, name))
      ensures Key(path, name) in goal
    {
      var node, child :| node in selected && child in DefinitionOf(repository, node).references && child == name;
      assert Edge(repository, node, Key(path, name));
    }
  }

  function LineOf(repository: Repository, key: Key): nat {
    if Defined(repository, key) then DefinitionOf(repository, key).line else 0
  }

  lemma UndefinedThere(repository: Repository, path: string)
    requires path in repository && !repository[path].Module?
    ensures forall name :: !Defined(repository, Key(path, name))
  {
  }

  lemma SameMembers(a: seq<Key>, b: seq<Key>)
    requires multiset(a) == multiset(b)
    ensures forall key :: key in a <==> key in b
  {
    forall key ensures key in a <==> key in b {
      assert key in multiset(a) <==> key in multiset(b);
    }
  }

  lemma SameReferences(repository: Repository, a: seq<Key>, b: seq<Key>)
    requires AllDefined(repository, a) && forall key :: key in a <==> key in b
    ensures AllDefined(repository, b) && Referenced(repository, a) == Referenced(repository, b)
  {
  }

  lemma NoTargetLeadsNowhere(repository: Repository, node: ImportNode, nodes: seq<Key>)
    requires AllDefined(repository, nodes) && node.FromImport? && node.target.None?
    ensures forall other :: !BatchLeads(repository, node, nodes, other)
  {
  }

  lemma BatchIsJoint(repository: Repository, imports: seq<ImportNode>, i: nat, nodes: seq<Key>, path: string,
      other: Key, goal: iset<Key>)
    requires path in repository && repository[path].Module? && imports == repository[path].imports && i < |imports|
    requires AllDefined(repository, nodes) && JointlyClosed(repository, goal)
    requires forall key :: key in nodes ==> key.path == path && key in goal
    requires Defined(repository, other) && BatchLeads(repository, imports[i], nodes, other)
    ensures other in goal
  {
    hide Joins, Closed;
    var j, k :| 0 <= j < |nodes| && 0 <= k < |nodes|
      && Joins(imports[i], DefinitionOf(repository, nodes[j]), DefinitionOf(repository, nodes[k]), other);
    assert nodes[j] in nodes && nodes[k] in nodes;
    assert JointEdge(repository, nodes[j], nodes[k], other);
  }

  /** A definition one of the nodes leads to is a referenced name of its module, or behind one of its imports. */
  lemma EdgeIsCovered(repository: Repository, nodes: seq<Key>, path: string, key: Key, other: Key)
    requires AllDefined(repository, nodes) && key in nodes && key.path == path && Edge(repository, key, other)
    ensures || (other.path == path && other.name in Referenced(repository, nodes))
            || exists j :: 0 <= j < |repository[path].imports| && BatchLeads(repository, repository[path].imports[j], nodes, other)
    ensures Defined(repository, other) && other == Key(other.path, other.name)
  {
    hide Joins;
    var definition := DefinitionOf(repository, key);
    if other.path == path && other.name in definition.references {
      assert other.name in Referenced(repository, nodes);
    } else {
      var imports := repository[path].imports;
      var j :| 0 <= j < |imports| && Leads(imports[j], definition, other);
      var k :| 0 <= k < |nodes| && nodes[k] == key;
      assert BatchLeads(repository, imports[j], nodes, other);
    }
  }

  lemma NothingReferenced(repository: Repository)
    ensures Referenced(repository, []) == {}
  {
  }

  lemma ReferencedLast(repository: Repository, nodes: seq<Key>, node: Key)
    requires AllDefined(repository, nodes) && Defined(repository, node)
    ensures AllDefined(repository, nodes + [node])
    ensures Referenced(repository, nodes + [node]) == Referenced(repository, nodes) + DefinitionOf(repository, node).references
  {
    assert forall other :: other in nodes + [node] <==> other in nodes || other == node;
  }

  lemma SmallerSet(a: set<Key>, b: set<Key>)
    requires a < b
    ensures |a| < |b|
  {
    assert a + (b - a) == b;
    assert |a + (b - a)| == |a| + |b - a|;
    assert b - a != {};
  }

  // ---------------------------------------------------------------- what is collected

  lemma {:induction false} ChainStays(repository: Repository, chain: seq<Key>, keys: iset<Key>)
    requires Chain(repository, chain) && chain[0] in keys && Closed(repository, keys)
    ensures chain[|chain| - 1] in keys
    decreases |chain|
  {
    hide Edge;
    if |chain| > 1 {
      assert Edge(repository, chain[0], chain[1]);
      forall i | 0 <= i < |chain[1..]| - 1 ensures Edge(repository, chain[1..][i], chain[1..][i + 1]) {
        assert Edge(repository, chain[i + 1], chain[i + 2]);
      }
      ChainStays(repository, chain[1..], keys);
    }
  }

  lemma ReachableIsIn(repository: Repository, path: string, names: set<string>, key: Key, keys: iset<Key>)
    requires Reachable(repository, path, names, key)
    requires Closed(repository, keys) && HoldsRoots(repository, path, names, keys)
    ensures key in keys
  {
    hide Edge, Defined, Closed;
    var chain :| Chain(repository, chain) && Root(repository, path, names, chain[0]) && chain[|chain| - 1] == key;
    var first: Key := chain[0];
    assert first == Key(path, first.name);
    ChainStays(repository, chain, keys);
  }

  lemma ReachableClosed(repository: Repository, path: string, names: set<string>)
    ensures Closed(repository, iset key | Reachable(repository, path, names, key))
    ensures HoldsRoots(repository, path, names, iset key | Reachable(repository, path, names, key))
  {
    hide Edge, Root;
    forall key, other | Reachable(repository, path, names, key) && Edge(repository, key, other)
      ensures Reachable(repository, path, names, other)
    {
      var chain :| Chain(repository, chain) && Root(repository, path, names, chain[0]) && chain[|chain| - 1] == key;
      var longer := chain + [other];
      assert forall i :: 0 <= i < |chain| ==> longer[i] == chain[i];
      assert Chain(repository, longer) && longer[0] == chain[0] && longer[|longer| - 1] == other;
    }
    forall name | name in names && Defined(repository, Key(path, name)) ensures Reachable(repository, path, names, Key(path, name)) {
      RootsReachable(repository, path, names, Key(path, name));
    }
  }

  lemma RootsReachable(repository: Repository, path: string, names: set<string>, key: Key)
    requires key.path == path && key.name in names && Defined(repository, key)
    ensures Reachable(repository, path, names, key)
  {
    assert Chain(repository, [key]) && Root(repository, path, names, [key][0]);
  }

  // ---------------------------------------------------------------- how much more

  lemma JointEdgeIsLoose(repository: Repository, loading: Key, taking: Key, other: Key)
    requires JointEdge(repository, loading, taking, other)
    ensures Edge(repository, loading, other) || LooseEdge(repository, taking, other)
  {
    hide LooseEdge;
    var imports := repository[loading.path].imports;
    var i :| 0 <= i < |imports| && Joins(imports[i], DefinitionOf(repository, loading), DefinitionOf(repository, taking), other);
    match imports[i] {
      case FromImport(_, _) =>
        assert Leads(imports[i], DefinitionOf(repository, loading), other);
      case PlainImport(modules) =>
        var k :| 0 <= k < |modules| && modules[k].target == Some(other.path)
          && modules[k].bound in DefinitionOf(repository, loading).references
          && (modules[k].bound, other.name) in DefinitionOf(repository, taking).attributes;
        TakenIsLoose(repository, taking, other, i, k);
    }
  }

  lemma TakenIsLoose(repository: Repository, taking: Key, other: Key, i: nat, k: nat)
    requires Defined(repository, taking) && Defined(repository, other)
    requires i < |repository[taking.path].imports| && repository[taking.path].imports[i].PlainImport?
    requires k < |repository[taking.path].imports[i].modules|
    requires repository[taking.path].imports[i].modules[k].target == Some(other.path)
    requires (repository[taking.path].imports[i].modules[k].bound, other.name) in DefinitionOf(repository, taking).attributes
    ensures LooseEdge(repository, taking, other)
  {
    hide Edge;
  }

  lemma LooselyClosed(repository: Repository, path: string, names: set<string>, keys: iset<Key>)
    requires keys == iset key | LooselyReachable(repository, path, names, key)
    ensures JointlyClosed(repository, keys) && HoldsRoots(repository, path, names, keys)
  {
    hide Edge, LooseEdge, JointEdge, Root;
    forall key, other | key in keys && LooseEdge(repository, key, other) ensures other in keys {
      var chain :| LooseChain(repository, chain) && Root(repository, path, names, chain[0]) && chain[|chain| - 1] == key;
      var longer := chain + [other];
      assert forall i :: 0 <= i < |chain| ==> longer[i] == chain[i];
      assert LooseChain(repository, longer) && longer[0] == chain[0] && longer[|longer| - 1] == other;
    }
    forall key, other | key in keys && Edge(repository, key, other) ensures other in keys {
      EdgeIsLoose(repository, key, other);
    }
    forall loading, taking, other | loading in keys && taking in keys && JointEdge(repository, loading, taking, other)
      ensures other in keys
    {
      JointEdgeIsLoose(repository, loading, taking, other);
    }
    forall name | name in names && Defined(repository, Key(path, name)) ensures Key(path, name) in keys {
      var chain := [Key(path, name)];
      RootOf(repository, path, names, name);
      assert LooseChain(repository, chain) && chain[0] == Key(path, name);
    }
  }

  lemma EdgeIsLoose(repository: Repository, key: Key, other: Key)
    requires Edge(repository, key, other)
    ensures LooseEdge(repository, key, other)
  {
    hide Edge;
  }

  lemma RootOf(repository: Repository, path: string, names: set<string>, name: string)
    requires name in names && Defined(repository, Key(path, name))
    ensures Root(repository, path, names, Key(path, name))
  {
  }

  /** Whatever is shadowed: joint reach is within the chains that ignore who loads a module's name. */
  lemma JointlyIsLoosely(repository: Repository, path: string, names: set<string>, key: Key)
    requires JointlyReachable(repository, path, names, key)
    ensures LooselyReachable(repository, path, names, key)
  {
    hide JointlyClosed, HoldsRoots, LooselyReachable;
    var keys := iset key | LooselyReachable(repository, path, names, key);
    LooselyClosed(repository, path, names, keys);
    assert key in keys;
  }

  /** Without shadowing a definition that takes a module's attribute leads there by itself. */
  lemma UnshadowedJoint(repository: Repository, loading: Key, taking: Key, other: Key)
    requires Unshadowed(repository) && JointEdge(repository, loading, taking, other)
    ensures Edge(repository, loading, other) || Edge(repository, taking, other)
  {
    hide Unshadowed;
    var imports := repository[loading.path].imports;
    var i :| 0 <= i < |imports| && Joins(imports[i], DefinitionOf(repository, loading), DefinitionOf(repository, taking), other);
    match imports[i] {
      case FromImport(_, _) =>
        assert Leads(imports[i], DefinitionOf(repository, loading), other);
      case PlainImport(modules) =>
        var k :| 0 <= k < |modules| && modules[k].target == Some(other.path)
          && modules[k].bound in DefinitionOf(repository, loading).references
          && (modules[k].bound, other.name) in DefinitionOf(repository, taking).attributes;
        UnshadowedUse(repository, taking, modules[k].bound, other.name, i, k);
        assert Joins(imports[i], DefinitionOf(repository, taking), DefinitionOf(repository, taking), other);
        assert Leads(imports[i], DefinitionOf(repository, taking), other);
    }
  }

  lemma UnshadowedUse(repository: Repository, taking: Key, bound: string, name: string, i: nat, k: nat)
    requires Unshadowed(repository) && Defined(repository, taking)
    requires i < |repository[taking.path].imports| && repository[taking.path].imports[i].PlainImport?
    requires k < |repository[taking.path].imports[i].modules| && repository[taking.path].imports[i].modules[k].bound == bound
    requires repository[taking.path].imports[i].modules[k].target.Some?
    requires (bound, name) in DefinitionOf(repository, taking).attributes
    ensures bound in DefinitionOf(repository, taking).references
  {
    assert BindsModule(repository, taking.path, (bound, name).0);
    assert (bound, name) in repository[taking.path].definitions[taking.name].attributes;
  }

  /** Joint reach is plain reach exactly when reachable definitions lead nowhere else together. */
  lemma ExactReach(repository: Repository, path: string, names: set<string>)
    ensures (forall key :: JointlyReachable(repository, path, names, key) <==> Reachable(repository, path, names, key))
        <==> JointlyClosed(repository, iset key | Reachable(repository, path, names, key))
  {
    hide Reachable, Edge, JointEdge, HoldsRoots, Closed;
    var reachable := iset key | Reachable(repository, path, names, key);
    ReachableClosed(repository, path, names);
    forall key | Reachable(repository, path, names, key) ensures JointlyReachable(repository, path, names, key) {
      ReachableIsJointly(repository, path, names, key);
    }
    if forall key :: JointlyReachable(repository, path, names, key) <==> Reachable(repository, path, names, key) {
      forall loading, taking, other | loading in reachable && taking in reachable && JointEdge(repository, loading, taking, other)
        ensures other in reachable
      {
        assert JointlyReachable(repository, path, names, loading) && JointlyReachable(repository, path, names, taking);
        JointlyFollows(repository, path, names, loading, taking, other);
      }
    }
  }

  lemma JointlyFollows(repository: Repository, path: string, names: set<string>, loading: Key, taking: Key, other: Key)
    requires JointlyReachable(repository, path, names, loading) && JointlyReachable(repository, path, names, taking)
    requires JointEdge(repository, loading, taking, other)
    ensures JointlyReachable(repository, path, names, other)
  {
    hide JointEdge, Closed, HoldsRoots;
  }

  lemma ReachableIsJointly(repository: Repository, path: string, names: set<string>, key: Key)
    requires Reachable(repository, path, names, key)
    ensures JointlyReachable(repository, path, names, key)
  {
    hide Reachable, Closed, HoldsRoots;
    forall keys: iset<Key> | JointlyClosed(repository, keys) && HoldsRoots(repository, path, names, keys) ensures key in keys {
      ReachableIsIn(repository, path, names, key, keys);
    }
  }

  lemma JointlyReachableClosed(repository: Repository, path: string, names: set<string>, keys: iset<Key>)
    requires keys == iset key | JointlyReachable(repository, path, names, key)
    ensures JointlyClosed(repository, keys) && HoldsRoots(repository, path, names, keys)
  {
    hide JointEdge, Edge, Defined, JointlyReachable;
    forall key, other | key in keys && Edge(repository, key, other) ensures other in keys {
      FollowsAlone(repository, path, names, key, other);
    }
    forall loading, taking, other | loading in keys && taking in keys && JointEdge(repository, loading, taking, other)
      ensures other in keys
    {
      JointlyFollows(repository, path, names, loading, taking, other);
    }
    forall name | name in names && Defined(repository, Key(path, name)) ensures Key(path, name) in keys {
      RootsReachable(repository, path, names, Key(path, name));
      ReachableIsJointly(repository, path, names, Key(path, name));
    }
  }

  lemma FollowsAlone(repository: Repository, path: string, names: set<string>, key: Key, other: Key)
    requires JointlyReachable(repository, path, names, key) && Edge(repository, key, other)
    ensures JointlyReachable(repository, path, names, other)
  {
    hide Edge, JointEdge, HoldsRoots;
  }

  /** Without shadowing, and so with only from-imports, joint reach is plain reach. */
  lemma UnshadowedIsExact(repository: Repository, path: string, names: set<string>, key: Key)
    requires Unshadowed(repository)
    ensures JointlyReachable(repository, path, names, key) <==> Reachable(repository, path, names, key)
  {
    hide Unshadowed, Edge, JointEdge, Reachable, HoldsRoots;
    var reachable := iset key | Reachable(repository, path, names, key);
    ReachableClosed(repository, path, names);
    forall loading, taking, other | loading in reachable && taking in reachable && JointEdge(repository, loading, taking, other)
      ensures other in reachable
    {
      UnshadowedJoint(repository, loading, taking, other);
    }
    ExactReach(repository, path, names);
  }

  lemma OnlyFromImportsUnshadowed(repository: Repository)
    requires OnlyFromImports(repository)
    ensures Unshadowed(repository)
  {
    forall path, bound | path in repository && repository[path].Module? ensures !BindsModule(repository, path, bound) {
      forall i, k | 0 <= i < |repository[path].imports| && repository[path].imports[i].PlainImport?
        && 0 <= k < |repository[path].imports[i].modules|
        ensures repository[path].imports[i].modules[k].target.None?
      {
        var node := repository[path].imports[i];
        assert node in repository[path].imports && node.modules[k] in node.modules;
      }
    }
  }

  // ---------------------------------------------------------------- from requested names

  lemma {:induction false} LocalChainStays(repository: Repository, path: string, chain: seq<Key>, batch: seq<Key>)
    requires AllDefined(repository, batch) && LocalChain(repository, path, chain) && chain[0] in batch
    requires forall name :: name in Referenced(repository, batch) && Defined(repository, Key(path, name)) ==> Key(path, name) in batch
    ensures chain[|chain| - 1] in batch
    decreases |chain|
  {
    if |chain| > 1 {
      var next: Key := chain[1];
      assert LocalEdge(repository, path, chain[0], next);
      assert next.name in Referenced(repository, batch) && next == Key(path, next.name);
      forall i | 0 <= i < |chain[1..]| - 1 ensures LocalEdge(repository, path, chain[1..][i], chain[1..][i + 1]) {
        assert LocalEdge(repository, path, chain[i + 1], chain[i + 2]);
      }
      LocalChainStays(repository, path, chain[1..], batch);
    }
  }

  lemma FirstBatchIsModule(repository: Repository, path: string, names: set<string>, key: Key)
    requires FirstBatch(repository, path, names, key)
    ensures path in repository && repository[path].Module?
  {
  }

  lemma FirstBatchSelected(repository: Repository, path: string, names: set<string>, key: Key, batch: seq<Key>)
    requires AllDefined(repository, batch) && FirstBatch(repository, path, names, key)
    requires forall name :: name in names && Defined(repository, Key(path, name)) ==> Key(path, name) in batch
    requires forall name :: name in Referenced(repository, batch) && Defined(repository, Key(path, name)) ==> Key(path, name) in batch
    ensures key in batch
  {
    hide LocalEdge, Defined, Referenced;
    var chain :| LocalChain(repository, path, chain) && Root(repository, path, names, chain[0]) && chain[|chain| - 1] == key;
    var first: Key := chain[0];
    assert first == Key(path, first.name);
    LocalChainStays(repository, path, chain, batch);
  }

  /** What two definitions of a batch lead to together, the whole batch leads to. */
  lemma JointIsVisited(repository: Repository, path: string, batch: seq<Key>, loading: Key, taking: Key, other: Key,
      visited: set<Key>)
    requires path in repository && repository[path].Module? && AllDefined(repository, batch)
    requires forall other, j :: Defined(repository, other) && 0 <= j < |repository[path].imports| ==>
               BatchLeads(repository, repository[path].imports[j], batch, other) ==> other in visited
    requires loading in batch && taking in batch && loading.path == path && JointEdge(repository, loading, taking, other)
    ensures other in visited
  {
    hide Joins;
    var imports := repository[path].imports;
    var i :| 0 <= i < |imports| && Joins(imports[i], DefinitionOf(repository, loading), DefinitionOf(repository, taking), other);
    var j :| 0 <= j < |batch| && batch[j] == loading;
    var k :| 0 <= k < |batch| && batch[k] == taking;
    assert Joins(imports[i], DefinitionOf(repository, batch[j]), DefinitionOf(repository, batch[k]), other);
    assert BatchLeads(repository, imports[i], batch, other);
  }

  /** From requested names and nothing visited: every definition they reach is collected, each once, with
      what definitions of the first batch lead to together; nothing is that is not jointly reachable. */
  method CollectFrom(repository: Repository, path: string, requested: set<string>) returns (visited: set<Key>,
      collected: seq<Key>)
    requires path in repository
    ensures forall key :: Reachable(repository, path, requested, key) ==> key in visited
    ensures forall key :: key in visited ==> JointlyReachable(repository, path, requested, key)
    ensures forall loading, taking, other ::
              && FirstBatch(repository, path, requested, loading) && FirstBatch(repository, path, requested, taking)
              && JointEdge(repository, loading, taking, other)
              ==> other in visited
    ensures Unshadowed(repository) ==> forall key :: key in visited <==> Reachable(repository, path, requested, key)
    ensures forall key :: key in visited ==> LooselyReachable(repository, path, requested, key)
    ensures visited <= Definitions(repository) && multiset(collected) == multiset(visited)
  {
    hide Edge, JointEdge, Unshadowed, Defined, Reachable, LooselyReachable, Definitions, FirstBatch;
    var collector := new Collector(repository);
    ghost var goal := iset key | JointlyReachable(repository, path, requested, key);
    JointlyReachableClosed(repository, path, requested, goal);
    ghost var batch := collector.Collect(path, requested, goal);
    visited, collected := collector.visited, collector.collected;
    ghost var all := iset key | key in visited;
    assert Closed(repository, all) && HoldsRoots(repository, path, requested, all);
    forall key | Reachable(repository, path, requested, key) ensures key in visited {
      ReachableIsIn(repository, path, requested, key, all);
    }
    forall key | key in visited
      ensures JointlyReachable(repository, path, requested, key) && LooselyReachable(repository, path, requested, key)
      ensures Unshadowed(repository) ==> Reachable(repository, path, requested, key)
    {
      assert key in goal;
      JointlyIsLoosely(repository, path, requested, key);
      if Unshadowed(repository) {
        UnshadowedIsExact(repository, path, requested, key);
      }
    }
    forall loading, taking, other |
      && FirstBatch(repository, path, requested, loading) && FirstBatch(repository, path, requested, taking)
      && JointEdge(repository, loading, taking, other)
      ensures other in visited
    {
      FirstBatchIsModule(repository, path, requested, loading);
      FirstBatchSelected(repository, path, requested, loading, batch);
      FirstBatchSelected(repository, path, requested, taking, batch);
      JointIsVisited(repository, path, batch, loading, taking, other, visited);
    }
  }

  // ---------------------------------------------------------------- a shadowed name

  const LIBRARY := PlainImport([ModuleAlias("library", Some("library.py"))])
  const FIRST := Definition(2, {"library"}, {})
  const SECOND := Definition(4, {}, {("library", "helper")})

  /** `import library`, a definition that loads the name, and one that takes an attribute of a parameter
      of that name. */
  function Shadowed(): Repository {
    map[
      "main.py" := Module(map["first" := FIRST, "second" := SECOND], [LIBRARY]),
      "library.py" := Module(map["helper" := Definition(1, {}, {})], [])
    ]
  }

  lemma ShadowedEdges(key: Key, other: Key)
    requires key == Key("main.py", "first") || key == Key("main.py", "second")
    ensures !Edge(Shadowed(), key, other)
  {
    var definition := DefinitionOf(Shadowed(), key);
    assert definition == FIRST || definition == SECOND;
    assert !Leads(LIBRARY, definition, other);
  }

  lemma ShadowedJointly(first: Key, second: Key, helper: Key, requested: set<string>)
    requires first == Key("main.py", "first") && second == Key("main.py", "second") && helper == Key("library.py", "helper")
    requires requested == {"first", "second"}
    ensures FirstBatch(Shadowed(), "main.py", requested, first) && FirstBatch(Shadowed(), "main.py", requested, second)
    ensures JointEdge(Shadowed(), first, second, helper)
  {
    assert LocalChain(Shadowed(), "main.py", [first]) && Root(Shadowed(), "main.py", requested, [first][0]);
    assert LocalChain(Shadowed(), "main.py", [second]) && Root(Shadowed(), "main.py", requested, [second][0]);
    assert LIBRARY.modules[0].bound == "library";
    assert Joins(Shadowed()["main.py"].imports[0], FIRST, SECOND, helper);
  }

  lemma ShadowedUnreachable(first: Key, second: Key, helper: Key, requested: set<string>)
    requires first == Key("main.py", "first") && second == Key("main.py", "second") && helper == Key("library.py", "helper")
    requires requested == {"first", "second"}
    ensures !Reachable(Shadowed(), "main.py", requested, helper)
  {
    hide Edge, Reachable, Shadowed;
    var keys := iset{first, second};
    forall key, other | key in keys ensures !Edge(Shadowed(), key, other) {
      ShadowedEdges(key, other);
    }
    if Reachable(Shadowed(), "main.py", requested, helper) {
      ReachableIsIn(Shadowed(), "main.py", requested, helper, keys);
    }
  }

  /** The helper is collected although no definition leads to it. */
  method ShadowedCollectsMore() returns (visited: set<Key>, collected: seq<Key>)
    ensures Key("library.py", "helper") in visited
    ensures !Reachable(Shadowed(), "main.py", {"first", "second"}, Key("library.py", "helper"))
  {
    hide Reachable, JointlyReachable, LooselyReachable, FirstBatch, JointEdge, Unshadowed, Definitions;
    ghost var first, second, helper := Key("main.py", "first"), Key("main.py", "second"), Key("library.py", "helper");
    var requested := {"first", "second"};
    visited, collected := CollectFrom(Shadowed(), "main.py", requested);
    ShadowedJointly(first, second, helper, requested);
    ShadowedUnreachable(first, second, helper, requested);
  }
}
