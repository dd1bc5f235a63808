/** What the walk of src/introspection.rs:19-74 guarantees, stated against
    reference definitions that do not use the alias table:

    - the `extends`, `includes` and `macros` sets are exactly the names found
      anywhere in the tree, whatever the nesting (merge loses nothing and adds
      nothing);
    - the alias table changes only at the loop variables of the tree, and
      keeps every other binding;
    - the fuel bound never changes a result that was reached. */
module WalkProperties {
  import opened Wrappers
  import opened Paths
  import opened Syntax
  import opened Aliases
  import opened Introspection

  // ---------------------------------------------------------------------------
  // Reference definitions

  /** The dependency names declared anywhere in `nodes`. */
  function DepsOf(nodes: seq<Node>): Summary
    decreases nodes, 1
  {
    if nodes == [] then Empty else Union(NodeDeps(nodes[0]), DepsOf(nodes[1..]))
  }

  function NodeDeps(node: Node): Summary
    decreases node, 0
  {
    match node
    case Extends(name) => Empty.(extended := {name})
    case Include(template) => Empty.(includes := {Join("", template)})
    case ImportMacro(name) => Empty.(macros := {name})
    case Block(body) => DepsOf(body)
    case Forloop(_, _, body) => DepsOf(body)
    case If(conditions, otherwise) =>
      Union(ArmsDeps(conditions), match otherwise case NoElse => Empty case Else(body) => DepsOf(body))
    case VariableBlock(_) => Empty
    case Other => Empty
  }

  function ArmsDeps(conditions: seq<Branch>): Summary
    decreases conditions
  {
    if conditions == [] then Empty else Union(DepsOf(conditions[0].body), ArmsDeps(conditions[1..]))
  }

  /** The loop variables that the walk binds: those of loops over an
      identifier, anywhere in `nodes`. */
  function LoopVars(nodes: seq<Node>): set<string>
    decreases nodes, 1
  {
    if nodes == [] then {} else NodeLoopVars(nodes[0]) + LoopVars(nodes[1..])
  }

  function NodeLoopVars(node: Node): set<string>
    decreases node, 0
  {
    match node
    case Block(body) => LoopVars(body)
    case Forloop(value, container, body) => (if container.Ident? then {value} else {}) + LoopVars(body)
    case If(conditions, otherwise) =>
      ArmsLoopVars(conditions) + (match otherwise case NoElse => {} case Else(body) => LoopVars(body))
    case _ => {}
  }

  function ArmsLoopVars(conditions: seq<Branch>): set<string>
    decreases conditions
  {
    if conditions == [] then {} else LoopVars(conditions[0].body) + ArmsLoopVars(conditions[1..])
  }

  /** The summary without its identifiers. */
  function Deps(s: Summary): Summary {
    s.(idents := {})
  }

  /** Everything a scan state has gathered: its own sets and its items. */
  function Total(acc: Scan): Summary {
    MergeAll(acc.local, acc.items)
  }

  /** `t2` is `t` with bindings for `vars` added or replaced and nothing else
      changed. */
  predicate Rebinds(t: Table, t2: Table, vars: set<string>) {
    && t2.Keys == t.Keys + vars
    && forall k :: k in t && k !in vars ==> t2[k] == t[k]
  }

  /** How many child scopes `node` opens directly; the walk pushes one result
      for each (lines 38, 44, 49 and 52). */
  function Scopes(node: Node): nat {
    match node
    case Block(_) => 1
    case Forloop(_, _, _) => 1
    case If(conditions, otherwise) => |conditions| + (if otherwise.Else? then 1 else 0)
    case _ => 0
  }

  function ScopesOf(nodes: seq<Node>): nat {
    if nodes == [] then 0 else Scopes(nodes[0]) + ScopesOf(nodes[1..])
  }

  /** Every set of `a` is contained in the same set of `b`. */
  predicate Within(a: Summary, b: Summary) {
    a.extended <= b.extended && a.includes <= b.includes && a.macros <= b.macros && a.idents <= b.idents
  }

  /** `b` is a later state of the same loop as `a`: the local sets only grew,
      the results pushed before are kept in order, and a table whose paths
      are well-formed stayed so. */
  predicate Grows(a: Scan, b: Scan) {
    && Within(a.local, b.local)
    && a.items <= b.items
    && (ValidTable(a.table) ==> ValidTable(b.table))
  }

  // ---------------------------------------------------------------------------
  // Merging

  lemma {:induction false} MergeAllPush(s: Summary, items: seq<Summary>, x: Summary)
    ensures MergeAll(s, items + [x]) == Union(MergeAll(s, items), x)
    decreases |items|
  {
    if items != [] {
      assert (items + [x])[0] == items[0] && (items + [x])[1..] == items[1..] + [x];
      MergeAllPush(Union(s, items[0]), items[1..], x);
    } else {
      assert [] + [x] == [x];
    }
  }

  lemma {:induction false} MergeAllLocal(s: Summary, d: Summary, items: seq<Summary>)
    ensures MergeAll(Union(s, d), items) == Union(MergeAll(s, items), d)
    decreases |items|
  {
    if items != [] {
      assert Union(Union(s, d), items[0]) == Union(Union(s, items[0]), d);
      MergeAllLocal(Union(s, items[0]), d, items[1..]);
    }
  }

  /** The identifiers of the local sets do not affect the dependency sets of
      the merge. */
  lemma {:induction false} MergeAllDeps(s1: Summary, s2: Summary, items: seq<Summary>)
    requires Deps(s1) == Deps(s2)
    ensures Deps(MergeAll(s1, items)) == Deps(MergeAll(s2, items))
    decreases |items|
  {
    if items != [] {
      MergeAllDeps(Union(s1, items[0]), Union(s2, items[0]), items[1..]);
    }
  }

  /** `merge` computes the join: the result contains both summaries, and is
      contained in anything that contains both. */
  lemma UnionIsJoin(a: Summary, b: Summary, u: Summary)
    ensures Within(a, Union(a, b)) && Within(b, Union(a, b))
    ensures Within(a, u) && Within(b, u) ==> Within(Union(a, b), u)
  {
  }

  /** The second loop of `new` computes the join of the local sets and every
      pushed result: nothing is lost and nothing is added. */
  lemma {:induction false} MergeAllIsJoin(s: Summary, items: seq<Summary>, u: Summary)
    ensures Within(s, MergeAll(s, items))
    ensures forall k :: 0 <= k < |items| ==> Within(items[k], MergeAll(s, items))
    ensures Within(s, u) && (forall k :: 0 <= k < |items| ==> Within(items[k], u)) ==> Within(MergeAll(s, items), u)
    decreases |items|
  {
    if items != [] {
      var s1 := Union(s, items[0]);
      MergeAllIsJoin(s1, items[1..], u);
      assert forall k :: 1 <= k < |items| ==> items[k] == items[1..][k - 1];
    }
  }

  lemma UnionAssoc(a: Summary, b: Summary, c: Summary)
    ensures Union(Union(a, b), c) == Union(a, Union(b, c))
  {
  }

  lemma RebindsTrans(t1: Table, t2: Table, t3: Table, v1: set<string>, v2: set<string>)
    requires Rebinds(t1, t2, v1) && Rebinds(t2, t3, v2)
    ensures Rebinds(t1, t3, v1 + v2)
  {
  }

  // ---------------------------------------------------------------------------
  // Structure: dependency sets and table changes

  /** The dependency sets of `new` are exactly those declared in the tree, and
      the table it leaves is the caller's with the tree's loop variables
      rebound. */
  lemma {:induction false} IntrospectStructure(nodes: seq<Node>, t: Table, fuel: nat)
    requires NonEmptyValues(t) && Introspect(nodes, t, fuel).Some?
    ensures Deps(Introspect(nodes, t, fuel).value.summary) == DepsOf(nodes)
    ensures Rebinds(t, Introspect(nodes, t, fuel).value.table, LoopVars(nodes))
    decreases nodes, 2
  {
    var start := Scan(Empty, [], t);
    ScanNodesStructure(nodes, start, fuel);
    assert Union(Deps(Total(start)), DepsOf(nodes)) == DepsOf(nodes);
  }

  lemma {:induction false} ScanNodesStructure(nodes: seq<Node>, acc: Scan, fuel: nat)
    requires NonEmptyValues(acc.table) && ScanNodes(nodes, acc, fuel).Some?
    ensures Deps(Total(ScanNodes(nodes, acc, fuel).value)) == Union(Deps(Total(acc)), DepsOf(nodes))
    ensures Rebinds(acc.table, ScanNodes(nodes, acc, fuel).value.table, LoopVars(nodes))
    decreases nodes, 1
  {
    if nodes == [] {
      assert Union(Deps(Total(acc)), Empty) == Deps(Total(acc));
    } else {
      var next := ScanNode(nodes[0], acc, fuel).value;
      assert ScanNodes(nodes, acc, fuel) == ScanNodes(nodes[1..], next, fuel);
      ScanNodeStructure(nodes[0], acc, fuel);
      ScanNodesStructure(nodes[1..], next, fuel);
      RebindsTrans(acc.table, next.table, ScanNodes(nodes, acc, fuel).value.table, NodeLoopVars(nodes[0]), LoopVars(nodes[1..]));
    }
  }

  lemma {:induction false} ScanNodeStructure(node: Node, acc: Scan, fuel: nat)
    requires NonEmptyValues(acc.table) && ScanNode(node, acc, fuel).Some?
    ensures Deps(Total(ScanNode(node, acc, fuel).value)) == Union(Deps(Total(acc)), NodeDeps(node))
    ensures Rebinds(acc.table, ScanNode(node, acc, fuel).value.table, NodeLoopVars(node))
    decreases node, 3
  {
    if node.Extends? || node.Include? || node.ImportMacro? {
      DeclStructure(node, acc, fuel);
    } else if node.Block? || node.Forloop? || node.If? {
      NestedStructure(node, acc, fuel);
    } else {
      LeafStructure(node, acc, fuel);
    }
  }

  /** References and the nodes the pass ignores gather no dependency and bind
      nothing. */
  lemma LeafStructure(node: Node, acc: Scan, fuel: nat)
    requires NonEmptyValues(acc.table) && ScanNode(node, acc, fuel).Some?
    requires node.VariableBlock? || node.Other?
    ensures Deps(Total(ScanNode(node, acc, fuel).value)) == Union(Deps(Total(acc)), NodeDeps(node))
    ensures Rebinds(acc.table, ScanNode(node, acc, fuel).value.table, NodeLoopVars(node))
  {
    if node.VariableBlock? {
      var ids := Collect(acc.local.idents, node.expr, acc.table, fuel).value;
      assert ScanNode(node, acc, fuel) == Some(acc.(local := acc.local.(idents := ids)));
      IdentsStructure(acc, ids);
    } else {
      assert ScanNode(node, acc, fuel) == Some(acc);
      assert Union(Deps(Total(acc)), Empty) == Deps(Total(acc));
    }
  }

  /** Blocks, loops and conditionals: what their child scopes gather. */
  lemma {:induction false} NestedStructure(node: Node, acc: Scan, fuel: nat)
    requires NonEmptyValues(acc.table) && ScanNode(node, acc, fuel).Some?
    requires node.Block? || node.Forloop? || node.If?
    ensures Deps(Total(ScanNode(node, acc, fuel).value)) == Union(Deps(Total(acc)), NodeDeps(node))
    ensures Rebinds(acc.table, ScanNode(node, acc, fuel).value.table, NodeLoopVars(node))
    decreases node, 2
  {
    match node
    case Block(body) =>
      assert ScanNode(node, acc, fuel) == Child(body, acc, fuel);
      ChildStructure(body, acc, fuel);
    case Forloop(value, container, body) =>
      assert ScanNode(node, acc, fuel) == ScanForloop(value, container, body, acc, fuel);
      ForloopStructure(value, container, body, acc, fuel);
    case If(conditions, otherwise) =>
      assert ScanNode(node, acc, fuel) == ScanIf(conditions, otherwise, acc, fuel);
      IfStructure(conditions, otherwise, acc, fuel);
  }

  /** `extends`, `include` and `import` add their name to the local sets. */
  lemma DeclStructure(node: Node, acc: Scan, fuel: nat)
    requires NonEmptyValues(acc.table) && (node.Extends? || node.Include? || node.ImportMacro?)
    ensures ScanNode(node, acc, fuel) == Some(acc.(local := Union(acc.local, NodeDeps(node))))
    ensures Deps(Total(ScanNode(node, acc, fuel).value)) == Union(Deps(Total(acc)), NodeDeps(node))
    ensures Rebinds(acc.table, ScanNode(node, acc, fuel).value.table, NodeLoopVars(node))
  {
    var local := acc.local;
    if node.Extends? {
      assert local.(extended := local.extended + {node.name}) == Union(local, NodeDeps(node));
    } else if node.Include? {
      assert local.(includes := local.includes + {Join("", node.template)}) == Union(local, NodeDeps(node));
    } else {
      assert local.(macros := local.macros + {node.name}) == Union(local, NodeDeps(node));
    }
    LocalDepsStructure(acc, NodeDeps(node));
  }

  /** Adding dependency names to the local sets adds them to the total. */
  lemma LocalDepsStructure(acc: Scan, d: Summary)
    ensures Deps(Total(acc.(local := Union(acc.local, d)))) == Union(Deps(Total(acc)), Deps(d))
  {
    MergeAllLocal(acc.local, d, acc.items);
  }

  /** Changing the local identifiers leaves the dependency sets alone. */
  lemma IdentsStructure(acc: Scan, ids: set<string>)
    ensures Deps(Total(acc.(local := acc.local.(idents := ids)))) == Union(Deps(Total(acc)), Empty)
  {
    MergeAllDeps(acc.local.(idents := ids), acc.local, acc.items);
  }

  lemma {:induction false} ForloopStructure(value: string, container: Expr, body: seq<Node>, acc: Scan, fuel: nat)
    requires NonEmptyValues(acc.table) && ScanForloop(value, container, body, acc, fuel).Some?
    ensures Deps(Total(ScanForloop(value, container, body, acc, fuel).value)) == Union(Deps(Total(acc)), DepsOf(body))
    ensures Rebinds(acc.table, ScanForloop(value, container, body, acc, fuel).value.table,
                    (if container.Ident? then {value} else {}) + LoopVars(body))
    decreases Forloop(value, container, body), 1
  {
    var t := Bind(acc.table, value, container, true);
    var ids := Collect(acc.local.idents, container, t, fuel).value;
    var acc1 := acc.(local := acc.local.(idents := ids), table := t);
    MergeAllDeps(acc1.local, acc.local, acc.items);
    ChildStructure(body, acc1, fuel);
    RebindsTrans(acc.table, t, Child(body, acc1, fuel).value.table, if container.Ident? then {value} else {}, LoopVars(body));
  }

  lemma {:induction false} IfStructure(conditions: seq<Branch>, otherwise: Otherwise, acc: Scan, fuel: nat)
    requires NonEmptyValues(acc.table) && ScanIf(conditions, otherwise, acc, fuel).Some?
    ensures Deps(Total(ScanIf(conditions, otherwise, acc, fuel).value)) == Union(Deps(Total(acc)), NodeDeps(If(conditions, otherwise)))
    ensures Rebinds(acc.table, ScanIf(conditions, otherwise, acc, fuel).value.table, NodeLoopVars(If(conditions, otherwise)))
    decreases If(conditions, otherwise), 1
  {
    ScanBranchesStructure(conditions, acc, fuel);
    var next := ScanBranches(conditions, acc, fuel).value;
    match otherwise {
      case NoElse =>
        assert Union(ArmsDeps(conditions), Empty) == ArmsDeps(conditions);
        assert ArmsLoopVars(conditions) + {} == ArmsLoopVars(conditions);
      case Else(body) =>
        ChildStructure(body, next, fuel);
        UnionAssoc(Deps(Total(acc)), ArmsDeps(conditions), DepsOf(body));
        RebindsTrans(acc.table, next.table, Child(body, next, fuel).value.table, ArmsLoopVars(conditions), LoopVars(body));
    }
  }

  lemma {:induction false} ChildStructure(body: seq<Node>, acc: Scan, fuel: nat)
    requires NonEmptyValues(acc.table) && Child(body, acc, fuel).Some?
    ensures Deps(Total(Child(body, acc, fuel).value)) == Union(Deps(Total(acc)), DepsOf(body))
    ensures Rebinds(acc.table, Child(body, acc, fuel).value.table, LoopVars(body))
    decreases body, 3
  {
    var w := Introspect(body, acc.table, fuel).value;
    IntrospectStructure(body, acc.table, fuel);
    MergeAllPush(acc.local, acc.items, w.summary);
  }

  lemma {:induction false} ScanBranchesStructure(conditions: seq<Branch>, acc: Scan, fuel: nat)
    requires NonEmptyValues(acc.table) && ScanBranches(conditions, acc, fuel).Some?
    ensures Deps(Total(ScanBranches(conditions, acc, fuel).value)) == Union(Deps(Total(acc)), ArmsDeps(conditions))
    ensures Rebinds(acc.table, ScanBranches(conditions, acc, fuel).value.table, ArmsLoopVars(conditions))
    decreases conditions, 1
  {
    if conditions == [] {
      assert Union(Deps(Total(acc)), Empty) == Deps(Total(acc));
    } else {
      var arm := conditions[0];
      ScanArmStructure(arm, acc, fuel);
      var next := ScanArm(arm, acc, fuel).value;
      ScanBranchesStructure(conditions[1..], next, fuel);
      var last := ScanBranches(conditions[1..], next, fuel).value;
      assert ScanBranches(conditions, acc, fuel).value == last;
      UnionAssoc(Deps(Total(acc)), DepsOf(arm.body), ArmsDeps(conditions[1..]));
      RebindsTrans(acc.table, next.table, last.table, LoopVars(arm.body), ArmsLoopVars(conditions[1..]));
    }
  }

  lemma {:induction false} ScanArmStructure(arm: Branch, acc: Scan, fuel: nat)
    requires NonEmptyValues(acc.table) && ScanArm(arm, acc, fuel).Some?
    ensures Deps(Total(ScanArm(arm, acc, fuel).value)) == Union(Deps(Total(acc)), DepsOf(arm.body))
    ensures Rebinds(acc.table, ScanArm(arm, acc, fuel).value.table, LoopVars(arm.body))
    decreases arm, 0
  {
    var ids := Collect(acc.local.idents, arm.cond, acc.table, fuel).value;
    var acc1 := acc.(local := acc.local.(idents := ids));
    MergeAllDeps(acc1.local, acc.local, acc.items);
    ChildStructure(arm.body, acc1, fuel);
  }

  // ---------------------------------------------------------------------------
  // Growth: what each step keeps, and one result per child scope

  lemma GrowsTrans(a: Scan, b: Scan, c: Scan)
    requires Grows(a, b) && Grows(b, c)
    ensures Grows(a, c)
  {
    assert c.items[..|a.items|] == c.items[..|b.items|][..|a.items|];
  }

  /** `new` keeps a well-formed table well-formed, so `add_ident` always
      expands against paths as `add_mapping` stores them. */
  lemma {:induction false} IntrospectValid(nodes: seq<Node>, t: Table, fuel: nat)
    requires NonEmptyValues(t) && ValidTable(t) && Introspect(nodes, t, fuel).Some?
    ensures ValidTable(Introspect(nodes, t, fuel).value.table)
    decreases nodes, 2
  {
    ScanNodesGrows(nodes, Scan(Empty, [], t), fuel);
  }

  /** The first loop of `new` pushes exactly one result per child scope, in
      order after the earlier ones, and its local sets only grow. */
  lemma {:induction false} ScanNodesGrows(nodes: seq<Node>, acc: Scan, fuel: nat)
    requires NonEmptyValues(acc.table) && ScanNodes(nodes, acc, fuel).Some?
    ensures Grows(acc, ScanNodes(nodes, acc, fuel).value)
    ensures |ScanNodes(nodes, acc, fuel).value.items| == |acc.items| + ScopesOf(nodes)
    decreases nodes, 1
  {
    if nodes != [] {
      var next := ScanNode(nodes[0], acc, fuel).value;
      assert ScanNodes(nodes, acc, fuel) == ScanNodes(nodes[1..], next, fuel);
      ScanNodeGrows(nodes[0], acc, fuel);
      ScanNodesGrows(nodes[1..], next, fuel);
      GrowsTrans(acc, next, ScanNodes(nodes, acc, fuel).value);
    }
  }

  /** One turn of the first loop: the local sets only grow, and one result is
      pushed per child scope of the node. */
  lemma {:induction false} ScanNodeGrows(node: Node, acc: Scan, fuel: nat)
    requires NonEmptyValues(acc.table) && ScanNode(node, acc, fuel).Some?
    ensures Grows(acc, ScanNode(node, acc, fuel).value)
    ensures |ScanNode(node, acc, fuel).value.items| == |acc.items| + Scopes(node)
    decreases node, 3
  {
    match node
    case Block(body) =>
      assert ScanNode(node, acc, fuel) == Child(body, acc, fuel);
      ChildGrows(body, acc, fuel);
    case Forloop(value, container, body) =>
      assert ScanNode(node, acc, fuel) == ScanForloop(value, container, body, acc, fuel);
      ForloopGrows(value, container, body, acc, fuel);
    case If(conditions, otherwise) =>
      assert ScanNode(node, acc, fuel) == ScanIf(conditions, otherwise, acc, fuel);
      IfGrows(conditions, otherwise, acc, fuel);
    case _ =>
      LeafGrows(node, acc, fuel);
  }

  /** Nodes without a child scope push nothing and leave the table alone. */
  lemma LeafGrows(node: Node, acc: Scan, fuel: nat)
    requires NonEmptyValues(acc.table) && ScanNode(node, acc, fuel).Some?
    requires !node.Block? && !node.Forloop? && !node.If?
    ensures ScanNode(node, acc, fuel).value.items == acc.items
    ensures ScanNode(node, acc, fuel).value.table == acc.table
    ensures Within(acc.local, ScanNode(node, acc, fuel).value.local)
  {
  }

  /** A loop pushes one result and keeps the earlier state. */
  lemma {:induction false} ForloopGrows(value: string, container: Expr, body: seq<Node>, acc: Scan, fuel: nat)
    requires NonEmptyValues(acc.table) && ScanForloop(value, container, body, acc, fuel).Some?
    ensures Grows(acc, ScanForloop(value, container, body, acc, fuel).value)
    ensures |ScanForloop(value, container, body, acc, fuel).value.items| == |acc.items| + 1
    decreases Forloop(value, container, body), 1
  {
    var t := Bind(acc.table, value, container, true);
    var ids := Collect(acc.local.idents, container, t, fuel).value;
    var acc1 := acc.(local := acc.local.(idents := ids), table := t);
    assert Grows(acc, acc1);
    ChildGrows(body, acc1, fuel);
    GrowsTrans(acc, acc1, Child(body, acc1, fuel).value);
  }

  /** An `if` pushes one result per arm, and one more for an `else`. */
  lemma {:induction false} IfGrows(conditions: seq<Branch>, otherwise: Otherwise, acc: Scan, fuel: nat)
    requires NonEmptyValues(acc.table) && ScanIf(conditions, otherwise, acc, fuel).Some?
    ensures Grows(acc, ScanIf(conditions, otherwise, acc, fuel).value)
    ensures |ScanIf(conditions, otherwise, acc, fuel).value.items|
         == |acc.items| + |conditions| + (if otherwise.Else? then 1 else 0)
    decreases If(conditions, otherwise), 1
  {
    ScanBranchesGrows(conditions, acc, fuel);
    var next := ScanBranches(conditions, acc, fuel).value;
    match otherwise {
      case NoElse =>
      case Else(body) =>
        ChildGrows(body, next, fuel);
        GrowsTrans(acc, next, Child(body, next, fuel).value);
    }
  }

  /** A child scope pushes exactly its own result and leaves the local sets
      as they were. */
  lemma {:induction false} ChildGrows(body: seq<Node>, acc: Scan, fuel: nat)
    requires NonEmptyValues(acc.table) && Child(body, acc, fuel).Some?
    ensures Grows(acc, Child(body, acc, fuel).value)
    ensures Child(body, acc, fuel).value.local == acc.local
    ensures |Child(body, acc, fuel).value.items| == |acc.items| + 1
    decreases body, 3
  {
    var w := Introspect(body, acc.table, fuel).value;
    if ValidTable(acc.table) {
      IntrospectValid(body, acc.table, fuel);
    }
    assert (acc.items + [w.summary])[..|acc.items|] == acc.items;
  }

  /** The `if`/`elif` arms push one result each. */
  lemma {:induction false} ScanBranchesGrows(conditions: seq<Branch>, acc: Scan, fuel: nat)
    requires NonEmptyValues(acc.table) && ScanBranches(conditions, acc, fuel).Some?
    ensures Grows(acc, ScanBranches(conditions, acc, fuel).value)
    ensures |ScanBranches(conditions, acc, fuel).value.items| == |acc.items| + |conditions|
    decreases conditions, 1
  {
    if conditions != [] {
      var next := ScanArm(conditions[0], acc, fuel).value;
      ScanArmGrows(conditions[0], acc, fuel);
      ScanBranchesGrows(conditions[1..], next, fuel);
      assert ScanBranches(conditions, acc, fuel) == ScanBranches(conditions[1..], next, fuel);
      GrowsTrans(acc, next, ScanBranches(conditions, acc, fuel).value);
    }
  }

  /** One arm adds its condition and pushes its body's result. */
  lemma {:induction false} ScanArmGrows(arm: Branch, acc: Scan, fuel: nat)
    requires NonEmptyValues(acc.table) && ScanArm(arm, acc, fuel).Some?
    ensures Grows(acc, ScanArm(arm, acc, fuel).value)
    ensures |ScanArm(arm, acc, fuel).value.items| == |acc.items| + 1
    decreases arm, 0
  {
    var ids := Collect(acc.local.idents, arm.cond, acc.table, fuel).value;
    var acc1 := acc.(local := acc.local.(idents := ids));
    assert Grows(acc, acc1);
    ChildGrows(arm.body, acc1, fuel);
    GrowsTrans(acc, acc1, Child(arm.body, acc1, fuel).value);
  }

  // ---------------------------------------------------------------------------
  // Fuel

  lemma CollectMoreFuel(idents: set<string>, expr: Expr, t: Table, fuel: nat, more: nat)
    requires NonEmptyValues(t) && Collect(idents, expr, t, fuel).Some? && fuel <= more
    ensures Collect(idents, expr, t, more) == Collect(idents, expr, t, fuel)
  {
    if expr.Ident? {
      ExpandMoreFuel(SplitIdent(expr.path), t, fuel, more);
    }
  }

  /** A walk that finishes with some fuel gives the same summary and table
      with any larger fuel: the bound decides only whether the walk ends. */
  lemma {:induction false} IntrospectMoreFuel(nodes: seq<Node>, t: Table, fuel: nat, more: nat)
    requires NonEmptyValues(t) && Introspect(nodes, t, fuel).Some? && fuel <= more
    ensures Introspect(nodes, t, more) == Introspect(nodes, t, fuel)
    decreases nodes, 2
  {
    ScanNodesMoreFuel(nodes, Scan(Empty, [], t), fuel, more);
  }

  lemma {:induction false} ScanNodesMoreFuel(nodes: seq<Node>, acc: Scan, fuel: nat, more: nat)
    requires NonEmptyValues(acc.table) && ScanNodes(nodes, acc, fuel).Some? && fuel <= more
    ensures ScanNodes(nodes, acc, more) == ScanNodes(nodes, acc, fuel)
    decreases nodes, 1
  {
    if nodes != [] {
      ScanNodeMoreFuel(nodes[0], acc, fuel, more);
      ScanNodesMoreFuel(nodes[1..], ScanNode(nodes[0], acc, fuel).value, fuel, more);
    }
  }

  lemma {:induction false} ScanNodeMoreFuel(node: Node, acc: Scan, fuel: nat, more: nat)
    requires NonEmptyValues(acc.table) && ScanNode(node, acc, fuel).Some? && fuel <= more
    ensures ScanNode(node, acc, more) == ScanNode(node, acc, fuel)
    decreases node, 2
  {
    match node
    case Block(body) =>
      ChildMoreFuel(body, acc, fuel, more);
    case Forloop(value, container, body) =>
      ForloopMoreFuel(value, container, body, acc, fuel, more);
    case If(conditions, otherwise) =>
      IfMoreFuel(conditions, otherwise, acc, fuel, more);
    case VariableBlock(expr) =>
      CollectMoreFuel(acc.local.idents, expr, acc.table, fuel, more);
    case _ =>
  }

  lemma {:induction false} ForloopMoreFuel(value: string, container: Expr, body: seq<Node>, acc: Scan, fuel: nat, more: nat)
    requires NonEmptyValues(acc.table) && ScanForloop(value, container, body, acc, fuel).Some? && fuel <= more
    ensures ScanForloop(value, container, body, acc, more) == ScanForloop(value, container, body, acc, fuel)
    decreases Forloop(value, container, body), 1
  {
    var t := Bind(acc.table, value, container, true);
    CollectMoreFuel(acc.local.idents, container, t, fuel, more);
    var ids := Collect(acc.local.idents, container, t, fuel).value;
    ChildMoreFuel(body, acc.(local := acc.local.(idents := ids), table := t), fuel, more);
  }

  lemma {:induction false} IfMoreFuel(conditions: seq<Branch>, otherwise: Otherwise, acc: Scan, fuel: nat, more: nat)
    requires NonEmptyValues(acc.table) && ScanIf(conditions, otherwise, acc, fuel).Some? && fuel <= more
    ensures ScanIf(conditions, otherwise, acc, more) == ScanIf(conditions, otherwise, acc, fuel)
    decreases If(conditions, otherwise), 1
  {
    ScanBranchesMoreFuel(conditions, acc, fuel, more);
    if otherwise.Else? {
      ChildMoreFuel(otherwise.body, ScanBranches(conditions, acc, fuel).value, fuel, more);
    }
  }

  lemma {:induction false} ChildMoreFuel(body: seq<Node>, acc: Scan, fuel: nat, more: nat)
    requires NonEmptyValues(acc.table) && Child(body, acc, fuel).Some? && fuel <= more
    ensures Child(body, acc, more) == Child(body, acc, fuel)
    decreases body, 3
  {
    IntrospectMoreFuel(body, acc.table, fuel, more);
  }

  lemma {:induction false} ScanBranchesMoreFuel(conditions: seq<Branch>, acc: Scan, fuel: nat, more: nat)
    requires NonEmptyValues(acc.table) && ScanBranches(conditions, acc, fuel).Some? && fuel <= more
    ensures ScanBranches(conditions, acc, more) == ScanBranches(conditions, acc, fuel)
    decreases conditions, 1
  {
    if conditions != [] {
      var arm := conditions[0];
      CollectMoreFuel(acc.local.idents, arm.cond, acc.table, fuel, more);
      var ids := Collect(acc.local.idents, arm.cond, acc.table, fuel).value;
      ChildMoreFuel(arm.body, acc.(local := acc.local.(idents := ids)), fuel, more);
      ScanBranchesMoreFuel(conditions[1..], ScanArm(arm, acc, fuel).value, fuel, more);
    }
  }
}
