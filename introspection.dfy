/** The introspection pass of src/introspection.rs: `TeraIntrospection::new`
    walks a node list with the shared alias table and returns the four sets,
    after merging in the results of the child scopes (lines 19-74); `merge`
    (lines 76-81) and `add_ident` (lines 84-90) are its helpers.

    The walk is given twice: as pure functions (`Introspect` and the scan
    functions below it), which state what one call computes, and as the class
    `TeraIntrospection` whose static method `New` runs the two loops of the
    original over the mutable table and is proved to compute exactly that. */
module Introspection {
  import opened Wrappers
  import opened Paths
  import opened Syntax
  import opened Aliases

  /** The four sets of `TeraIntrospection` (lines 11-16) as a value.
      `extends` is a Dafny keyword, hence `extended`. */
  datatype Summary = Summary(extended: set<string>, includes: set<string>, macros: set<string>, idents: set<string>)

  const Empty := Summary({}, {}, {}, {})

  /** What `merge` does to the four sets. */
  function Union(a: Summary, b: Summary): Summary {
    Summary(a.extended + b.extended, a.includes + b.includes, a.macros + b.macros, a.idents + b.idents)
  }

  /** `add_ident`: an identifier is split, expanded and dot-joined, and the
      result added; any other expression adds nothing. `None`: the expansion
      did not finish within `fuel`. */
  function Collect(idents: set<string>, expr: Expr, t: Table, fuel: nat): (r: Option<set<string>>)
    requires NonEmptyValues(t)
    ensures !expr.Ident? ==> r == Some(idents)
    ensures expr.Ident? ==> (r.Some? <==> Expand(SplitIdent(expr.path), t, fuel).Some?)
    ensures r.Some? ==> idents <= r.value && |r.value - idents| <= 1
    ensures r.Some? && expr.Ident? ==> r.value == idents + {Join(".", Expand(SplitIdent(expr.path), t, fuel).value)}
  {
    match expr
    case Ident(v) =>
      (match Expand(SplitIdent(v), t, fuel)
       case Some(names) =>
         assert idents + {Join(".", names)} - idents <= {Join(".", names)};
         Some(idents + {Join(".", names)})
       case None => None)
    case NonIdent => Some(idents)
  }

  // ---------------------------------------------------------------------------
  // The walk as functions

  /** The state of one `new` call part-way through its `for` loop: the four
      local sets (lines 20-23), the pushed child results (`items`, line 24)
      and the shared alias table. */
  datatype Scan = Scan(local: Summary, items: seq<Summary>, table: Table)

  /** What one `new` call returns, and the alias table it leaves behind. */
  datatype Walked = Walked(summary: Summary, table: Table)

  /** The second loop of `new` (lines 69-71): merge every item, in order. */
  function MergeAll(s: Summary, items: seq<Summary>): Summary
    decreases |items|
  {
    if items == [] then s else MergeAll(Union(s, items[0]), items[1..])
  }

  /** `TeraIntrospection::new(nodes, mapping)`. */
  function Introspect(nodes: seq<Node>, t: Table, fuel: nat): (r: Option<Walked>)
    requires NonEmptyValues(t)
    ensures r.Some? ==> NonEmptyValues(r.value.table)
    decreases nodes, 2
  {
    match ScanNodes(nodes, Scan(Empty, [], t), fuel)
    case None => None
    case Some(sc) => Some(Walked(MergeAll(sc.local, sc.items), sc.table))
  }

  /** The first loop of `new` (lines 26-60), from state `acc` on. */
  function ScanNodes(nodes: seq<Node>, acc: Scan, fuel: nat): (r: Option<Scan>)
    requires NonEmptyValues(acc.table)
    ensures r.Some? ==> NonEmptyValues(r.value.table)
    decreases nodes, 1
  {
    if nodes == [] then Some(acc)
    else
      match ScanNode(nodes[0], acc, fuel)
      case None => None
      case Some(next) => ScanNodes(nodes[1..], next, fuel)
  }

  /** One turn of the first loop: the `match node` of lines 27-59. */
  function ScanNode(node: Node, acc: Scan, fuel: nat): (r: Option<Scan>)
    requires NonEmptyValues(acc.table)
    ensures r.Some? ==> NonEmptyValues(r.value.table)
    decreases node, 2
  {
    var local := acc.local;
    match node
    case Extends(name) =>
      Some(acc.(local := local.(extended := local.extended + {name})))
    case Include(template) =>
      Some(acc.(local := local.(includes := local.includes + {Join("", template)})))
    case ImportMacro(name) =>
      Some(acc.(local := local.(macros := local.macros + {name})))
    case Block(body) =>
      Child(body, acc, fuel)
    case Forloop(value, container, body) =>
      ScanForloop(value, container, body, acc, fuel)
    case If(conditions, otherwise) =>
      ScanIf(conditions, otherwise, acc, fuel)
    case VariableBlock(expr) =>
      (match Collect(local.idents, expr, acc.table, fuel)
       case None => None
       case Some(ids) => Some(acc.(local := local.(idents := ids))))
    case Other =>
      Some(acc)
  }

  /** A `for` loop (lines 41-44): the loop variable is bound before the
      container is collected, so the container is expanded with the new
      binding; then the body is walked with it. */
  function ScanForloop(value: string, container: Expr, body: seq<Node>, acc: Scan, fuel: nat): (r: Option<Scan>)
    requires NonEmptyValues(acc.table)
    ensures r.Some? ==> NonEmptyValues(r.value.table)
    decreases Forloop(value, container, body), 1
  {
    var t := Bind(acc.table, value, container, true);
    match Collect(acc.local.idents, container, t, fuel)
    case None => None
    case Some(ids) => Child(body, acc.(local := acc.local.(idents := ids), table := t), fuel)
  }

  /** An `if` (lines 47-53): the arms in order, then the `else` body. */
  function ScanIf(conditions: seq<Branch>, otherwise: Otherwise, acc: Scan, fuel: nat): (r: Option<Scan>)
    requires NonEmptyValues(acc.table)
    ensures r.Some? ==> NonEmptyValues(r.value.table)
    decreases If(conditions, otherwise), 1
  {
    match ScanBranches(conditions, acc, fuel)
    case None => None
    case Some(next) =>
      match otherwise
      case NoElse => Some(next)
      case Else(body) => Child(body, next, fuel)
  }

  /** `items.push(TeraIntrospection::new(body, mapping))`: the child scope is
      walked at once, with the shared table; only its merge is deferred. */
  function Child(body: seq<Node>, acc: Scan, fuel: nat): (r: Option<Scan>)
    requires NonEmptyValues(acc.table)
    ensures r.Some? ==> NonEmptyValues(r.value.table)
    decreases body, 3
  {
    match Introspect(body, acc.table, fuel)
    case None => None
    case Some(w) => Some(acc.(items := acc.items + [w.summary], table := w.table))
  }

  /** The `if`/`elif` arms in order (lines 47-50). */
  function ScanBranches(conditions: seq<Branch>, acc: Scan, fuel: nat): (r: Option<Scan>)
    requires NonEmptyValues(acc.table)
    ensures r.Some? ==> NonEmptyValues(r.value.table)
    decreases conditions, 1
  {
    if conditions == [] then Some(acc)
    else
      match ScanArm(conditions[0], acc, fuel)
      case None => None
      case Some(next) => ScanBranches(conditions[1..], next, fuel)
  }

  /** One arm: collect the condition, then walk the body (lines 48-49). */
  function ScanArm(arm: Branch, acc: Scan, fuel: nat): (r: Option<Scan>)
    requires NonEmptyValues(acc.table)
    ensures r.Some? ==> NonEmptyValues(r.value.table)
    decreases arm, 0
  {
    match Collect(acc.local.idents, arm.cond, acc.table, fuel)
    case None => None
    case Some(ids) => Child(arm.body, acc.(local := acc.local.(idents := ids)), fuel)
  }

  // ---------------------------------------------------------------------------
  // The walk as the original runs it

  /** `items[k]` holds the summary `views[k]`, for every `k`. */
  ghost predicate Mirrors(items: seq<TeraIntrospection>, views: seq<Summary>)
    reads items
  {
    |items| == |views| && forall k :: 0 <= k < |items| ==> items[k].View() == views[k]
  }

  class TeraIntrospection {
    var extended: set<string>
    var includes: set<string>
    var macros: set<string>
    var idents: set<string>

    function View(): Summary
      reads this
    {
      Summary(extended, includes, macros, idents)
    }

    /** `Self { extends, includes, macros, idents }` (lines 62-67). */
    constructor (extended: set<string>, includes: set<string>, macros: set<string>, idents: set<string>)
      ensures View() == Summary(extended, includes, macros, idents)
    {
      this.extended := extended;
      this.includes := includes;
      this.macros := macros;
      this.idents := idents;
    }

    /** `merge`: each set is extended by the other's; nothing is removed. */
    method Merge(other: TeraIntrospection)
      modifies this
      ensures View() == Union(old(View()), old(other.View()))
    {
      var o := other.View();
      extended := extended + o.extended;
      includes := includes + o.includes;
      macros := macros + o.macros;
      idents := idents + o.idents;
    }

    /** `TeraIntrospection::new(nodes, mapping)`. `None`: an expansion ran out
        of fuel, where the original would recurse without end. */
    static method New(nodes: seq<Node>, mapping: AliasTable, fuel: nat) returns (r: Option<TeraIntrospection>)
      requires mapping.Valid()
      modifies mapping
      ensures mapping.Valid()
      ensures r.None? <==> Introspect(nodes, old(mapping.mapping), fuel).None?
      ensures r.Some? ==> fresh(r.value) && Introspect(nodes, old(mapping.mapping), fuel) == Some(Walked(r.value.View(), mapping.mapping))
      decreases nodes, 0
    {
      ghost var start := Scan(Empty, [], mapping.mapping);
      var local := Empty;
      var items: seq<TeraIntrospection> := [];
      ghost var views: seq<Summary> := [];
      var i := 0;
      while i < |nodes|
        invariant 0 <= i <= |nodes|
        invariant mapping.Valid() && Mirrors(items, views)
        invariant forall k :: 0 <= k < |items| ==> fresh(items[k])
        invariant ScanNodes(nodes, start, fuel) == ScanNodes(nodes[i..], Scan(local, views, mapping.mapping), fuel)
      {
        assert nodes[i..][0] == nodes[i] && nodes[i..][1..] == nodes[i + 1..];
        var ok;
        ok, local, items, views := WalkNode(nodes[i], mapping, fuel, local, items, views);
        if !ok {
          return None;
        }
        i := i + 1;
      }

      var ins := new TeraIntrospection(local.extended, local.includes, local.macros, local.idents);
      var j := 0;
      while j < |items|
        invariant 0 <= j <= |items|
        invariant forall k :: 0 <= k < |items| ==> items[k] != ins
        modifies ins
        invariant Mirrors(items, views)
        invariant MergeAll(ins.View(), views[j..]) == MergeAll(local, views)
      {
        assert views[j..][0] == views[j] && views[j..][1..] == views[j + 1..];
        ins.Merge(items[j]);
        j := j + 1;
      }
      r := Some(ins);
    }

    /** One turn of the first loop of `new`: the `match node` of lines 27-59,
        on the four local sets `local` and the pushed results `items`. */
    static method WalkNode(node: Node, mapping: AliasTable, fuel: nat, local: Summary,
                           items: seq<TeraIntrospection>, ghost views: seq<Summary>)
      returns (ok: bool, local': Summary, items': seq<TeraIntrospection>, ghost views': seq<Summary>)
      requires mapping.Valid() && Mirrors(items, views)
      modifies mapping
      ensures mapping.Valid() && Mirrors(items', views')
      ensures |items| <= |items'| && items'[..|items|] == items
      ensures forall k :: |items| <= k < |items'| ==> fresh(items'[k])
      ensures ok <==> ScanNode(node, Scan(local, views, old(mapping.mapping)), fuel).Some?
      ensures ok ==> ScanNode(node, Scan(local, views, old(mapping.mapping)), fuel) == Some(Scan(local', views', mapping.mapping))
      decreases node, 3
    {
      ok, local', items', views' := true, local, items, views;
      match node {
        case Extends(name) =>
          local' := local.(extended := local.extended + {name});
        case Include(template) =>
          local' := local.(includes := local.includes + {Join("", template)});
        case ImportMacro(name) =>
          local' := local.(macros := local.macros + {name});
        case Block(body) =>
          ok, items', views' := PushChild(body, mapping, fuel, items, views);
        case Forloop(value, container, body) =>
          ok, local', items', views' := WalkForloop(value, container, body, mapping, fuel, local, items, views);
        case If(conditions, otherwise) =>
          ok, local', items', views' := WalkIf(conditions, otherwise, mapping, fuel, local, items, views);
        case VariableBlock(expr) =>
          var collected := Collect(local.idents, expr, mapping.mapping, fuel);
          if collected.None? {
            return false, local', items', views';
          }
          local' := local.(idents := collected.value);
        case Other =>
      }
    }

    /** A `for` loop (lines 41-44). */
    static method WalkForloop(value: string, container: Expr, body: seq<Node>, mapping: AliasTable, fuel: nat,
                              local: Summary, items: seq<TeraIntrospection>, ghost views: seq<Summary>)
      returns (ok: bool, local': Summary, items': seq<TeraIntrospection>, ghost views': seq<Summary>)
      requires mapping.Valid() && Mirrors(items, views)
      modifies mapping
      ensures mapping.Valid() && Mirrors(items', views')
      ensures |items| <= |items'| && items'[..|items|] == items
      ensures forall k :: |items| <= k < |items'| ==> fresh(items'[k])
      ensures ok <==> ScanForloop(value, container, body, Scan(local, views, old(mapping.mapping)), fuel).Some?
      ensures ok ==> ScanForloop(value, container, body, Scan(local, views, old(mapping.mapping)), fuel) == Some(Scan(local', views', mapping.mapping))
      decreases Forloop(value, container, body), 2
    {
      local', items', views' := local, items, views;
      mapping.AddMapping(value, container, true);
      var collected := Collect(local.idents, container, mapping.mapping, fuel);
      if collected.None? {
        return false, local', items', views';
      }
      local' := local.(idents := collected.value);
      ok, items', views' := PushChild(body, mapping, fuel, items, views);
    }

    /** An `if` (lines 47-53). */
    static method WalkIf(conditions: seq<Branch>, otherwise: Otherwise, mapping: AliasTable, fuel: nat,
                         local: Summary, items: seq<TeraIntrospection>, ghost views: seq<Summary>)
      returns (ok: bool, local': Summary, items': seq<TeraIntrospection>, ghost views': seq<Summary>)
      requires mapping.Valid() && Mirrors(items, views)
      modifies mapping
      ensures mapping.Valid() && Mirrors(items', views')
      ensures |items| <= |items'| && items'[..|items|] == items
      ensures forall k :: |items| <= k < |items'| ==> fresh(items'[k])
      ensures ok <==> ScanIf(conditions, otherwise, Scan(local, views, old(mapping.mapping)), fuel).Some?
      ensures ok ==> ScanIf(conditions, otherwise, Scan(local, views, old(mapping.mapping)), fuel) == Some(Scan(local', views', mapping.mapping))
      decreases If(conditions, otherwise), 2
    {
      ok, local', items', views' := WalkConditions(conditions, mapping, fuel, local, items, views);
      if ok && otherwise.Else? {
        ok, items', views' := PushChild(otherwise.body, mapping, fuel, items', views');
      }
    }

    /** The `if`/`elif` loop of lines 47-50. */
    static method WalkConditions(conditions: seq<Branch>, mapping: AliasTable, fuel: nat, local: Summary,
                                 items: seq<TeraIntrospection>, ghost views: seq<Summary>)
      returns (ok: bool, local': Summary, items': seq<TeraIntrospection>, ghost views': seq<Summary>)
      requires mapping.Valid() && Mirrors(items, views)
      modifies mapping
      ensures mapping.Valid() && Mirrors(items', views')
      ensures |items| <= |items'| && items'[..|items|] == items
      ensures forall k :: |items| <= k < |items'| ==> fresh(items'[k])
      ensures ok <==> ScanBranches(conditions, Scan(local, views, old(mapping.mapping)), fuel).Some?
      ensures ok ==> ScanBranches(conditions, Scan(local, views, old(mapping.mapping)), fuel) == Some(Scan(local', views', mapping.mapping))
      decreases conditions, 1
    {
      ghost var start := Scan(local, views, mapping.mapping);
      local', items', views' := local, items, views;
      var j := 0;
      while j < |conditions|
        invariant 0 <= j <= |conditions|
        invariant mapping.Valid() && Mirrors(items', views')
        invariant |items| <= |items'| && items'[..|items|] == items
        invariant forall k :: |items| <= k < |items'| ==> fresh(items'[k])
        invariant ScanBranches(conditions, start, fuel) == ScanBranches(conditions[j..], Scan(local', views', mapping.mapping), fuel)
      {
        assert conditions[j..][0] == conditions[j] && conditions[j..][1..] == conditions[j + 1..];
        ok, local', items', views' := WalkArm(conditions[j], mapping, fuel, local', items', views');
        if !ok {
          return;
        }
        j := j + 1;
      }
      ok := true;
    }

    /** One turn of the `if`/`elif` loop (lines 48-49). */
    static method WalkArm(arm: Branch, mapping: AliasTable, fuel: nat, local: Summary,
                          items: seq<TeraIntrospection>, ghost views: seq<Summary>)
      returns (ok: bool, local': Summary, items': seq<TeraIntrospection>, ghost views': seq<Summary>)
      requires mapping.Valid() && Mirrors(items, views)
      modifies mapping
      ensures mapping.Valid() && Mirrors(items', views')
      ensures |items| <= |items'| && items'[..|items|] == items
      ensures forall k :: |items| <= k < |items'| ==> fresh(items'[k])
      ensures ok <==> ScanArm(arm, Scan(local, views, old(mapping.mapping)), fuel).Some?
      ensures ok ==> ScanArm(arm, Scan(local, views, old(mapping.mapping)), fuel) == Some(Scan(local', views', mapping.mapping))
      decreases arm, 1
    {
      local', items', views' := local, items, views;
      var collected := Collect(local.idents, arm.cond, mapping.mapping, fuel);
      if collected.None? {
        return false, local', items', views';
      }
      local' := local.(idents := collected.value);
      ok, items', views' := PushChild(arm.body, mapping, fuel, items, views);
    }

    /** `items.push(TeraIntrospection::new(body, mapping))` (lines 38, 44, 49
        and 52). */
    static method PushChild(body: seq<Node>, mapping: AliasTable, fuel: nat,
                            items: seq<TeraIntrospection>, ghost views: seq<Summary>)
      returns (ok: bool, items': seq<TeraIntrospection>, ghost views': seq<Summary>)
      requires mapping.Valid() && Mirrors(items, views)
      modifies mapping
      ensures mapping.Valid() && Mirrors(items', views')
      ensures |items| <= |items'| && items'[..|items|] == items
      ensures forall k :: |items| <= k < |items'| ==> fresh(items'[k])
      ensures ok <==> Introspect(body, old(mapping.mapping), fuel).Some?
      ensures ok ==> |views'| == |views| + 1 && views' == views + [views'[|views|]]
      ensures ok ==> Introspect(body, old(mapping.mapping), fuel) == Some(Walked(views'[|views|], mapping.mapping))
      decreases body, 1
    {
      var child := New(body, mapping, fuel);
      if child.None? {
        return false, items, views;
      }
      ok, items', views' := true, items + [child.value], views + [child.value.View()];
    }
  }
}
