/** Properties of the identifiers the walk records (src/introspection.rs:40-44,
    55-57 and 84-90). */
module IdentProperties {
  import opened Wrappers
  import opened Paths
  import opened Syntax
  import opened Aliases
  import opened Introspection

  // ---------------------------------------------------------------------------
  // Joining helpers

  lemma {:induction false} JoinSnoc(p: seq<string>, f: string)
    requires |p| > 0
    ensures Join(".", p + [f]) == Join(".", p) + "." + f
  {
    if |p| == 1 {
      assert (p + [f])[1..] == [f];
    } else {
      assert (p + [f])[1..] == p[1..] + [f];
      JoinSnoc(p[1..], f);
      assert p[0] + "." + (Join(".", p[1..]) + "." + f) == p[0] + "." + Join(".", p[1..]) + "." + f;
    }
  }

  /** The loop marker shows up at the very end of the joined path. */
  lemma {:induction false} JoinMarkLoop(p: seq<string>)
    requires |p| > 0
    ensures Join(".", MarkLoop(p)) == Join(".", p) + "()"
  {
    if |p| == 1 {
      assert MarkLoop(p) == [p[0] + "()"];
    } else {
      var init := p[..|p| - 1];
      var last := p[|p| - 1];
      assert p == init + [last];
      assert MarkLoop(p) == init + [last + "()"];
      JoinSnoc(init, last);
      JoinSnoc(init, last + "()");
      assert Join(".", init) + "." + (last + "()") == Join(".", init) + "." + last + "()";
    }
  }

  /** A single segment splits into itself. */
  lemma SplitSegment(s: string)
    requires IsSegment(s)
    ensures SplitIdent(s) == [s]
  {
    SplitJoin([s]);
  }

  /** `a.b` with two segments splits into them. */
  lemma SplitPair(a: string, b: string)
    requires IsSegment(a) && IsSegment(b)
    ensures SplitIdent(a + "." + b) == [a, b]
  {
    SplitJoin([a, b]);
    assert Join(".", [a, b]) == a + "." + b;
  }

  /** A path after a segment and a dot starts with that segment, and has at
      least two segments. */
  lemma SplitDotted(v: string, rest: string)
    requires IsSegment(v)
    ensures |SplitIdent(v + "." + rest)| >= 2 && SplitIdent(v + "." + rest)[0] == v
  {
    assert v + "." + rest == v + ("." + rest);
    SplitRawGlue(v, "." + rest);
    assert ("." + rest)[1..] == rest;
    assert SplitRaw("." + rest) == [""] + SplitRaw(rest);
    assert v + "" == v;
    TrimSegment(v);
  }

  // ---------------------------------------------------------------------------
  // Collected identifiers

  /** A recorded identifier is fully expanded against the table it was
      recorded with: collecting it again, with any fuel, adds nothing. */
  lemma CollectedIsExpanded(idents: set<string>, v: string, t: Table, fuel: nat, again: nat)
    requires NonEmptyValues(t) && ValidTable(t)
    requires Collect(idents, Ident(v), t, fuel).Some?
    ensures var name := Join(".", Expand(SplitIdent(v), t, fuel).value);
            Collect(idents + {name}, Ident(name), t, again) == Some(idents + {name})
  {
    var p := Expand(SplitIdent(v), t, fuel).value;
    SplitJoin(p);
  }

  /** Walking a single reference gives exactly what `add_ident` collects. */
  lemma WalkOneRef(e: Expr, t: Table, fuel: nat)
    requires NonEmptyValues(t)
    ensures var w := Introspect([VariableBlock(e)], t, fuel);
            var ids := Collect({}, e, t, fuel);
            (w.Some? <==> ids.Some?) && (w.Some? ==> w.value == Walked(Empty.(idents := ids.value), t))
  {
    var start := Scan(Empty, [], t);
    match Collect({}, e, t, fuel)
    case None =>
      assert ScanNode(VariableBlock(e), start, fuel) == None;
    case Some(ids) =>
      var once := start.(local := Empty.(idents := ids));
      assert ScanNode(VariableBlock(e), start, fuel) == Some(once);
      assert [VariableBlock(e)][1..] == [];
      assert ScanNodes([VariableBlock(e)], start, fuel) == Some(once);
  }

  /** Sets deduplicate: a reference written twice is recorded once, and the
      walk ends exactly as if it had been written once. */
  lemma CollectTwice(e: Expr, t: Table, fuel: nat)
    requires NonEmptyValues(t)
    ensures Introspect([VariableBlock(e), VariableBlock(e)], t, fuel) == Introspect([VariableBlock(e)], t, fuel)
  {
    var start := Scan(Empty, [], t);
    var twice := [VariableBlock(e), VariableBlock(e)];
    assert twice[1..] == [VariableBlock(e)];
    match Collect({}, e, t, fuel)
    case None =>
      assert ScanNode(VariableBlock(e), start, fuel) == None;
      assert ScanNodes(twice, start, fuel) == None;
      assert ScanNodes([VariableBlock(e)], start, fuel) == None;
    case Some(ids) =>
      var once := start.(local := Empty.(idents := ids));
      assert ScanNode(VariableBlock(e), start, fuel) == Some(once);
      assert ScanNode(VariableBlock(e), once, fuel) == Some(once);
      assert ScanNodes(twice, start, fuel) == ScanNodes([VariableBlock(e)], once, fuel);
      assert ScanNodes([VariableBlock(e)], start, fuel) == ScanNodes([], once, fuel);
      assert ScanNodes([VariableBlock(e)], once, fuel) == ScanNodes([], once, fuel);
  }

  /** One `for value in c` loop whose body is one reference `r`, from any
      state: the container and the reference are both collected with the loop
      variable bound, the body's result is pushed, and the binding stays. */
  lemma LoopStep(value: string, c: string, r: string, acc: Scan, fuel: nat)
    requires NonEmptyValues(acc.table)
    requires Collect(acc.local.idents, Ident(c), Bind(acc.table, value, Ident(c), true), fuel).Some?
    requires Collect({}, Ident(r), Bind(acc.table, value, Ident(c), true), fuel).Some?
    ensures var t1 := Bind(acc.table, value, Ident(c), true);
            (ScanForloop(value, Ident(c), [VariableBlock(Ident(r))], acc, fuel)
             == Some(acc.(local := acc.local.(idents := Collect(acc.local.idents, Ident(c), t1, fuel).value),
                          items := acc.items + [Empty.(idents := Collect({}, Ident(r), t1, fuel).value)],
                          table := t1)))
  {
    var t1 := Bind(acc.table, value, Ident(c), true);
    var a := Collect(acc.local.idents, Ident(c), t1, fuel).value;
    WalkOneRef(Ident(r), t1, fuel);
    var mid := acc.(local := acc.local.(idents := a), table := t1);
    assert ScanForloop(value, Ident(c), [VariableBlock(Ident(r))], acc, fuel) == Child([VariableBlock(Ident(r))], mid, fuel);
  }

  /** `LoopStep` for `for value in c` over a body `{{ value.field }}`: the
      state gains `c` and a child holding `c().field`. */
  lemma LoopItemStep(value: string, c: string, field: string, acc: Scan, fuel: nat)
    requires NonEmptyValues(acc.table) && fuel >= 1
    requires IsSegment(value) && IsSegment(field)
    requires forall i :: 0 <= i < |c| ==> c[i] != '[' && c[i] != ']'
    requires SplitIdent(c)[0] != value && SplitIdent(c)[0] !in acc.table
    requires MarkLoop(SplitIdent(c))[0] != value && MarkLoop(SplitIdent(c))[0] !in acc.table
    ensures ScanNode(Forloop(value, Ident(c), [VariableBlock(Ident(value + "." + field))]), acc, fuel)
         == Some(acc.(local := acc.local.(idents := acc.local.idents + {c}),
                      items := acc.items + [Empty.(idents := {c + "()." + field})],
                      table := acc.table[value := MarkLoop(SplitIdent(c))]))
  {
    ForloopDispatch(value, Ident(c), [VariableBlock(Ident(value + "." + field))], acc, fuel);
    LoopItemForloop(value, c, field, acc, fuel);
  }

  /** `ScanNode` hands a loop to `ScanForloop`. */
  lemma ForloopDispatch(value: string, container: Expr, body: seq<Node>, acc: Scan, fuel: nat)
    requires NonEmptyValues(acc.table)
    ensures ScanNode(Forloop(value, container, body), acc, fuel) == ScanForloop(value, container, body, acc, fuel)
  {
  }

  /** The loop of `LoopItemStep`, once the `match` has picked it. */
  lemma LoopItemForloop(value: string, c: string, field: string, acc: Scan, fuel: nat)
    requires NonEmptyValues(acc.table) && fuel >= 1
    requires IsSegment(value) && IsSegment(field)
    requires forall i :: 0 <= i < |c| ==> c[i] != '[' && c[i] != ']'
    requires SplitIdent(c)[0] != value && SplitIdent(c)[0] !in acc.table
    requires MarkLoop(SplitIdent(c))[0] != value && MarkLoop(SplitIdent(c))[0] !in acc.table
    ensures ScanForloop(value, Ident(c), [VariableBlock(Ident(value + "." + field))], acc, fuel)
         == Some(acc.(local := acc.local.(idents := acc.local.idents + {c}),
                      items := acc.items + [Empty.(idents := {c + "()." + field})],
                      table := acc.table[value := MarkLoop(SplitIdent(c))]))
  {
    var t1 := Bind(acc.table, value, Ident(c), true);
    assert Collect(acc.local.idents, Ident(c), t1, fuel) == Some(acc.local.idents + {c}) by {
      ContainerCollected(acc.local.idents, value, c, acc.table, fuel);
    }
    assert Collect({}, Ident(value + "." + field), t1, fuel) == Some({c + "()." + field}) by {
      ItemCollected(value, c, field, acc.table, fuel);
    }
    assert t1 == acc.table[value := MarkLoop(SplitIdent(c))];
    LoopStep(value, c, value + "." + field, acc, fuel);
  }

  /** Inside `for value in c`, a reference `value.field` is recorded as
      `c().field`, and the container itself as `c` (lines 41-44), here for a
      container without brackets whose first segment, plain or marked, is
      neither an alias nor the loop variable. */
  lemma LoopItemResolves(value: string, c: string, field: string, t: Table, fuel: nat)
    requires NonEmptyValues(t) && fuel >= 1
    requires IsSegment(value) && IsSegment(field)
    requires forall i :: 0 <= i < |c| ==> c[i] != '[' && c[i] != ']'
    requires SplitIdent(c)[0] != value && SplitIdent(c)[0] !in t
    requires MarkLoop(SplitIdent(c))[0] != value && MarkLoop(SplitIdent(c))[0] !in t
    ensures Introspect([Forloop(value, Ident(c), [VariableBlock(Ident(value + "." + field))])], t, fuel)
         == Some(Walked(Empty.(idents := {c, c + "()." + field}), t[value := MarkLoop(SplitIdent(c))]))
  {
    var start := Scan(Empty, [], t);
    var loop := Forloop(value, Ident(c), [VariableBlock(Ident(value + "." + field))]);
    var item := Empty.(idents := {c + "()." + field});
    var done := Scan(Empty.(idents := {} + {c}), [] + [item], t[value := MarkLoop(SplitIdent(c))]);
    assert ScanNode(loop, start, fuel) == Some(done) by {
      LoopItemStep(value, c, field, start, fuel);
    }
    assert [loop][1..] == [];
    assert ScanNodes([loop], start, fuel) == Some(done);
    assert Introspect([loop], t, fuel) == Some(Walked(MergeAll(done.local, done.items), done.table));
    assert done.items == [item];
    assert MergeAll(done.local, [item]) == MergeAll(Union(done.local, item), []);
    assert Union(done.local, item) == Empty.(idents := {c, c + "()." + field});
  }

  /** A template that is one `for value in c` loop: the container is
      collected with the variable already bound, and the body's summary is
      merged into the loop's (lines 41-44 and 69-71). */
  lemma LoopWalk(value: string, c: string, body: seq<Node>, t: Table, fuel: nat)
    requires NonEmptyValues(t)
    requires Collect({}, Ident(c), Bind(t, value, Ident(c), true), fuel).Some?
    requires Introspect(body, Bind(t, value, Ident(c), true), fuel).Some?
    ensures var t1 := Bind(t, value, Ident(c), true);
            var w := Introspect(body, t1, fuel).value;
            (Introspect([Forloop(value, Ident(c), body)], t, fuel)
             == Some(Walked(Union(Empty.(idents := Collect({}, Ident(c), t1, fuel).value), w.summary), w.table)))
  {
    var t1 := Bind(t, value, Ident(c), true);
    var w := Introspect(body, t1, fuel).value;
    var start := Scan(Empty, [], t);
    var local := Empty.(idents := Collect({}, Ident(c), t1, fuel).value);
    var done := Scan(local, [w.summary], w.table);
    var loop := Forloop(value, Ident(c), body);
    assert ScanNode(loop, start, fuel) == Some(done) by {
      ForloopDispatch(value, Ident(c), body, start, fuel);
      var mid := start.(local := local, table := t1);
      assert ScanForloop(value, Ident(c), body, start, fuel) == Child(body, mid, fuel);
      assert Child(body, mid, fuel) == Some(mid.(items := [] + [w.summary], table := w.table));
      assert [] + [w.summary] == [w.summary];
    }
    assert [loop][1..] == [];
    assert ScanNodes([loop], start, fuel) == ScanNodes([], done, fuel);
    assert Introspect([loop], t, fuel) == Some(Walked(MergeAll(local, [w.summary]), w.table));
    assert [w.summary][1..] == [];
    assert MergeAll(local, [w.summary]) == MergeAll(Union(local, w.summary), []);
  }

  /** `LoopWalk` for a body of one reference `{{ r }}`. */
  lemma OneLoopWalk(value: string, c: string, r: string, t: Table, fuel: nat)
    requires NonEmptyValues(t)
    requires Collect({}, Ident(c), Bind(t, value, Ident(c), true), fuel).Some?
    requires Collect({}, Ident(r), Bind(t, value, Ident(c), true), fuel).Some?
    ensures var t1 := Bind(t, value, Ident(c), true);
            (Introspect([Forloop(value, Ident(c), [VariableBlock(Ident(r))])], t, fuel)
             == Some(Walked(Empty.(idents := Collect({}, Ident(c), t1, fuel).value + Collect({}, Ident(r), t1, fuel).value), t1)))
  {
    var t1 := Bind(t, value, Ident(c), true);
    WalkOneRef(Ident(r), t1, fuel);
    LoopWalk(value, c, [VariableBlock(Ident(r))], t, fuel);
  }

  /** Inside `for value in c`, for any container of two or more segments
      (lines 41-44): the container is recorded as its expansion `x`, with the
      loop variable already bound, and `value.field` as `x().field`. So
      an item is resolved through the aliases of outer loops. A container
      of one segment behaves differently (`LoopOverAliasItem`). */
  lemma LoopItemExpands(value: string, c: string, field: string, t: Table, fuel: nat)
    requires NonEmptyValues(t) && fuel >= 1
    requires IsSegment(value) && IsSegment(field)
    requires |SplitIdent(c)| >= 2
    requires Expand(SplitIdent(c), Bind(t, value, Ident(c), true), fuel - 1).Some?
    ensures var t1 := Bind(t, value, Ident(c), true);
            var x := Join(".", Expand(SplitIdent(c), t1, fuel - 1).value);
            (Introspect([Forloop(value, Ident(c), [VariableBlock(Ident(value + "." + field))])], t, fuel)
             == Some(Walked(Empty.(idents := {x, x + "()." + field}), t1)))
  {
    var t1 := Bind(t, value, Ident(c), true);
    var x := Join(".", Expand(SplitIdent(c), t1, fuel - 1).value);
    assert value in t1 && t1[value] == MarkLoop(SplitIdent(c));
    ContainerThroughAliases(c, t1, fuel);
    ItemCollectedThroughAliases(value, SplitIdent(c), field, t1, fuel);
    OneLoopWalk(value, c, value + "." + field, t, fuel);
    assert {x} + {x + "()." + field} == {x, x + "()." + field};
  }

  /** `add_ident` records the dot-join of what the split expands to. */
  lemma CollectIs(s: string, u: Table, fuel: nat, p: seq<string>)
    requires NonEmptyValues(u) && Expand(SplitIdent(s), u, fuel) == Some(p)
    ensures Collect({}, Ident(s), u, fuel) == Some({Join(".", p)})
  {
  }

  /** The container of `LoopItemExpands`, recorded as its expansion. */
  lemma ContainerThroughAliases(c: string, u: Table, fuel: nat)
    requires NonEmptyValues(u) && fuel >= 1
    requires Expand(SplitIdent(c), u, fuel - 1).Some?
    ensures Collect({}, Ident(c), u, fuel) == Some({Join(".", Expand(SplitIdent(c), u, fuel - 1).value)})
  {
    ExpandMoreFuel(SplitIdent(c), u, fuel - 1, fuel);
    CollectIs(c, u, fuel, Expand(SplitIdent(c), u, fuel - 1).value);
  }

  /** The item of `LoopItemExpands`, recorded as the expanded container with
      the marker, then the field. */
  lemma ItemCollectedThroughAliases(value: string, names: seq<string>, field: string, u: Table, fuel: nat)
    requires NonEmptyValues(u) && fuel >= 1
    requires IsSegment(value) && IsSegment(field)
    requires |names| >= 2 && value in u && u[value] == MarkLoop(names)
    requires Expand(names, u, fuel - 1).Some?
    ensures Collect({}, Ident(value + "." + field), u, fuel)
         == Some({Join(".", Expand(names, u, fuel - 1).value) + "()." + field})
  {
    var ex := Expand(names, u, fuel - 1).value;
    ItemThroughAliases(value, names, field, u, fuel);
    CollectIs(value + "." + field, u, fuel, MarkLoop(ex) + [field]);
    JoinMarkedField(ex, field);
  }

  /** A marked path with a field after it, dot-joined. */
  lemma JoinMarkedField(p: seq<string>, field: string)
    requires |p| > 0
    ensures Join(".", MarkLoop(p) + [field]) == Join(".", p) + "()." + field
  {
    JoinSnoc(MarkLoop(p), field);
    JoinMarkLoop(p);
    MarkerThenField(Join(".", p), field);
  }

  lemma MarkerThenField(x: string, field: string)
    ensures x + "()" + "." + field == x + "()." + field
  {
  }

  lemma JoinPair(a: string, b: string)
    ensures Join(".", [a, b]) == a + "." + b
  {
    assert [a, b][1..] == [b];
  }

  /** The expansion behind `LoopItemExpands`: one substitution for the loop
      variable, then the container's own expansion with the marker kept. */
  lemma ItemThroughAliases(value: string, names: seq<string>, field: string, u: Table, fuel: nat)
    requires NonEmptyValues(u) && fuel >= 1
    requires IsSegment(value) && IsSegment(field)
    requires |names| >= 2 && value in u && u[value] == MarkLoop(names)
    requires Expand(names, u, fuel - 1).Some?
    ensures Expand(SplitIdent(value + "." + field), u, fuel)
         == Some(MarkLoop(Expand(names, u, fuel - 1).value) + [field])
  {
    SplitPair(value, field);
    assert [value, field][1..] == [field];
    ExpandStep([value, field], u, fuel - 1);
    ExpandMarked(names, field, u, fuel - 1);
  }

  /** Inside `for value in a`, with `a` one segment: the loop variable is
      bound to `[a + "()"]` (lines 119-125), and `a()` is not an alias. So
      `value.field` is recorded as `a().field`, however `a` itself expands,
      while the container is recorded as its expansion. */
  lemma LoopOverAliasItem(value: string, a: string, field: string, t: Table, fuel: nat)
    requires NonEmptyValues(t) && fuel >= 1
    requires IsSegment(value) && IsSegment(a) && IsSegment(field)
    requires a + "()" != value && a + "()" !in t
    requires Expand([a], Bind(t, value, Ident(a), true), fuel).Some?
    ensures var t1 := Bind(t, value, Ident(a), true);
            (Introspect([Forloop(value, Ident(a), [VariableBlock(Ident(value + "." + field))])], t, fuel)
             == Some(Walked(Empty.(idents := {Join(".", Expand([a], t1, fuel).value), a + "()." + field}), t1)))
  {
    var t1 := Bind(t, value, Ident(a), true);
    var y := Join(".", Expand([a], t1, fuel).value);
    SingleSegment(a);
    assert value in t1 && t1[value] == [a + "()"] && a + "()" !in t1;
    CollectIs(a, t1, fuel, Expand([a], t1, fuel).value);
    BareItemCollected(value, a, field, t1, fuel);
    OneLoopWalk(value, a, value + "." + field, t, fuel);
    assert {y} + {a + "()." + field} == {y, a + "()." + field};
  }

  lemma SingleSegment(a: string)
    requires IsSegment(a)
    ensures SplitIdent(a) == [a]
  {
    SplitJoin([a]);
  }

  /** The item of `LoopOverAliasItem`: one substitution gives `a()`, which is
      not an alias, so expansion stops there. */
  lemma BareItemCollected(value: string, a: string, field: string, u: Table, fuel: nat)
    requires NonEmptyValues(u) && fuel >= 1
    requires IsSegment(value) && IsSegment(field)
    requires value in u && u[value] == [a + "()"] && a + "()" !in u
    ensures Collect({}, Ident(value + "." + field), u, fuel) == Some({a + "()." + field})
  {
    BareItemExpands(value, a, field, u, fuel);
    CollectIs(value + "." + field, u, fuel, [a + "()", field]);
    BareItemJoin(a, field);
  }

  lemma BareItemExpands(value: string, a: string, field: string, u: Table, fuel: nat)
    requires NonEmptyValues(u) && fuel >= 1
    requires IsSegment(value) && IsSegment(field)
    requires value in u && u[value] == [a + "()"] && a + "()" !in u
    ensures Expand(SplitIdent(value + "." + field), u, fuel) == Some([a + "()", field])
  {
    SplitPair(value, field);
    ExpandStep([value, field], u, fuel - 1);
    assert [a + "()"] + [value, field][1..] == [a + "()", field];
  }

  lemma BareItemJoin(a: string, field: string)
    ensures Join(".", [a + "()", field]) == a + "()." + field
  {
    JoinPair(a + "()", field);
    MarkerThenField(a, field);
  }

  /** The container, collected right after the loop variable is bound. */
  lemma ContainerCollected(idents: set<string>, value: string, c: string, t: Table, fuel: nat)
    requires NonEmptyValues(t)
    requires forall i :: 0 <= i < |c| ==> c[i] != '[' && c[i] != ']'
    requires SplitIdent(c)[0] != value && SplitIdent(c)[0] !in t
    ensures Collect(idents, Ident(c), Bind(t, value, Ident(c), true), fuel) == Some(idents + {c})
  {
    JoinSplit(c);
  }

  /** `value.field`, collected with `value` bound to the marked container. */
  lemma ItemCollected(value: string, c: string, field: string, t: Table, fuel: nat)
    requires NonEmptyValues(t) && fuel >= 1
    requires IsSegment(value) && IsSegment(field)
    requires forall i :: 0 <= i < |c| ==> c[i] != '[' && c[i] != ']'
    requires MarkLoop(SplitIdent(c))[0] != value && MarkLoop(SplitIdent(c))[0] !in t
    ensures Collect({}, Ident(value + "." + field), Bind(t, value, Ident(c), true), fuel) == Some({c + "()." + field})
  {
    var m := MarkLoop(SplitIdent(c));
    ItemExpanded(value, c, field, t, fuel);
    MarkedJoin(c, field);
  }

  /** The expansion behind `ItemCollected`: one substitution, then stop. */
  lemma ItemExpanded(value: string, c: string, field: string, t: Table, fuel: nat)
    requires NonEmptyValues(t) && fuel >= 1
    requires IsSegment(value) && IsSegment(field)
    requires MarkLoop(SplitIdent(c))[0] != value && MarkLoop(SplitIdent(c))[0] !in t
    ensures Expand(SplitIdent(value + "." + field), Bind(t, value, Ident(c), true), fuel)
         == Some(MarkLoop(SplitIdent(c)) + [field])
  {
    var m := MarkLoop(SplitIdent(c));
    var t1 := Bind(t, value, Ident(c), true);
    SplitPair(value, field);
    var q := m + [field];
    assert q[0] == m[0] && [value, field][1..] == [field];
    ExpandStep([value, field], t1, fuel - 1);
  }

  /** The dot-joined marked path ends in `()` and then the field. */
  lemma MarkedJoin(c: string, field: string)
    requires forall i :: 0 <= i < |c| ==> c[i] != '[' && c[i] != ']'
    ensures Join(".", MarkLoop(SplitIdent(c)) + [field]) == c + "()." + field
  {
    var p := SplitIdent(c);
    var m := MarkLoop(p);
    calc {
      Join(".", m + [field]);
    ==  { JoinSnoc(m, field); }
      Join(".", m) + "." + field;
    ==  { JoinMarkLoop(p); }
      Join(".", p) + "()" + "." + field;
    ==  { JoinSplit(c); }
      c + "()" + "." + field;
    ==
      c + "()." + field;
    }
  }

  /** `for x in x.y` binds `x` to a path that starts with `x`: walking it never
      ends, whatever the fuel and whatever the body. */
  lemma LoopOverOwnVariableDiverges(value: string, rest: string, body: seq<Node>, t: Table, fuel: nat)
    requires NonEmptyValues(t) && IsSegment(value)
    ensures Introspect([Forloop(value, Ident(value + "." + rest), body)], t, fuel) == None
  {
    var c := value + "." + rest;
    SelfLoopCollect(value, rest, t, fuel);
    var start := Scan(Empty, [], t);
    assert ScanForloop(value, Ident(c), body, start, fuel) == None;
    assert ScanNode(Forloop(value, Ident(c), body), start, fuel) == None;
  }

  /** The container of `for x in x.y` cannot be collected. */
  lemma SelfLoopCollect(value: string, rest: string, t: Table, fuel: nat)
    requires NonEmptyValues(t) && IsSegment(value)
    ensures Collect({}, Ident(value + "." + rest), Bind(t, value, Ident(value + "." + rest), true), fuel) == None
  {
    var p := SplitIdent(value + "." + rest);
    SplitDotted(value, rest);
    var t1 := Bind(t, value, Ident(value + "." + rest), true);
    assert MarkLoop(p)[0] == p[0];
    SelfAliasDiverges(p, t1, fuel);
  }

  /** A plain name that is not an alias is recorded as it is. */
  lemma PlainCollect(idents: set<string>, x: string, t: Table, fuel: nat)
    requires NonEmptyValues(t) && IsSegment(x) && x !in t
    ensures Collect(idents, Ident(x), t, fuel) == Some(idents + {x})
  {
    SplitSegment(x);
    assert Join(".", [x]) == x;
  }

  /** `for x in c` over a plain name binds `x` to `c()`. */
  lemma BindPlainLoop(t: Table, x: string, c: string)
    requires IsSegment(c)
    ensures Bind(t, x, Ident(c), true) == t[x := [c + "()"]]
  {
    SplitSegment(c);
    assert MarkLoop([c]) == [c + "()"];
  }

  /** One `for x in c` with an empty body, from any state: `c` is recorded,
      an empty child pushed and `x` bound to `c()`. */
  lemma EmptyLoopStep(x: string, c: string, acc: Scan, fuel: nat)
    requires NonEmptyValues(acc.table) && IsSegment(c) && c !in acc.table && c != x
    ensures ScanNode(Forloop(x, Ident(c), []), acc, fuel)
         == Some(acc.(local := acc.local.(idents := acc.local.idents + {c}),
                      items := acc.items + [Empty], table := acc.table[x := [c + "()"]]))
  {
    EmptyLoopForloop(x, c, acc, fuel);
  }

  /** The loop of `EmptyLoopStep`, once the `match` has picked it. */
  lemma EmptyLoopForloop(x: string, c: string, acc: Scan, fuel: nat)
    requires NonEmptyValues(acc.table) && IsSegment(c) && c !in acc.table && c != x
    ensures ScanForloop(x, Ident(c), [], acc, fuel)
         == Some(acc.(local := acc.local.(idents := acc.local.idents + {c}),
                      items := acc.items + [Empty], table := acc.table[x := [c + "()"]]))
  {
    var t1 := acc.table[x := [c + "()"]];
    assert Bind(acc.table, x, Ident(c), true) == t1 by {
      BindPlainLoop(acc.table, x, c);
    }
    assert Collect(acc.local.idents, Ident(c), t1, fuel) == Some(acc.local.idents + {c}) by {
      PlainCollect(acc.local.idents, c, t1, fuel);
    }
    var mid := acc.(local := acc.local.(idents := acc.local.idents + {c}), table := t1);
    assert Child([], mid, fuel) == Some(mid.(items := acc.items + [Empty])) by {
      EmptyChild(mid, fuel);
    }
  }

  /** An empty child scope pushes an empty summary and changes nothing else. */
  lemma EmptyChild(acc: Scan, fuel: nat)
    requires NonEmptyValues(acc.table)
    ensures Child([], acc, fuel) == Some(acc.(items := acc.items + [Empty]))
  {
    assert ScanNodes([], Scan(Empty, [], acc.table), fuel) == Some(Scan(Empty, [], acc.table));
    assert Introspect([], acc.table, fuel) == Some(Walked(Empty, acc.table));
  }

  /** A reference `x` followed by `for x in c` with an empty body: `x` is
      recorded as written, and then `x` becomes an alias. */
  lemma RefThenLoop(x: string, c: string, t: Table, fuel: nat)
    requires NonEmptyValues(t) && IsSegment(x) && IsSegment(c)
    requires x !in t && c !in t && c != x
    ensures Introspect([VariableBlock(Ident(x)), Forloop(x, Ident(c), [])], t, fuel)
         == Some(Walked(Empty.(idents := {x, c}), t[x := [c + "()"]]))
  {
    var s0 := Scan(Empty, [], t);
    var s1 := s0.(local := Empty.(idents := {x}));
    PlainCollect({}, x, t, fuel);
    assert {} + {x} == {x};
    assert ScanNode(VariableBlock(Ident(x)), s0, fuel) == Some(s1);
    EmptyLoopStep(x, c, s1, fuel);
    assert {x} + {c} == {x, c};
    var s3 := Scan(Empty.(idents := {x, c}), [Empty], t[x := [c + "()"]]);
    assert [] + [Empty] == [Empty];
    var nodes := [VariableBlock(Ident(x)), Forloop(x, Ident(c), [])];
    assert nodes[1..] == [Forloop(x, Ident(c), [])];
    assert ScanNodes(nodes[1..], s1, fuel) == ScanNodes([], s3, fuel);
    assert ScanNodes(nodes, s0, fuel) == Some(s3);
    assert MergeAll(s3.local, s3.items) == MergeAll(Union(s3.local, Empty), []);
  }

  /** A template that is one `for x in c` with an empty body. */
  lemma WalkEmptyLoop(x: string, c: string, t: Table, fuel: nat)
    requires NonEmptyValues(t) && IsSegment(c) && c !in t && c != x
    ensures Introspect([Forloop(x, Ident(c), [])], t, fuel) == Some(Walked(Empty.(idents := {c}), t[x := [c + "()"]]))
  {
    var s0 := Scan(Empty, [], t);
    var s1 := Scan(Empty.(idents := {c}), [Empty], t[x := [c + "()"]]);
    assert ScanNode(Forloop(x, Ident(c), []), s0, fuel) == Some(s1) by {
      EmptyLoopStep(x, c, s0, fuel);
      assert {} + {c} == {c};
      assert [] + [Empty] == [Empty];
    }
    var nodes := [Forloop(x, Ident(c), [])];
    assert nodes[1..] == [];
    assert ScanNodes(nodes[1..], s1, fuel) == Some(s1);
    assert ScanNodes(nodes, s0, fuel) == Some(s1);
    assert MergeAll(s1.local, s1.items) == MergeAll(Union(s1.local, Empty), []);
    assert Union(s1.local, Empty) == s1.local;
  }

  /** The first arm of `LaterArmSeesBinding`: `a` is collected and the loop
      body binds `x`. */
  lemma FirstArmBinds(a: string, x: string, c: string, t: Table, fuel: nat)
    requires NonEmptyValues(t) && IsSegment(a) && IsSegment(c)
    requires a !in t && c !in t && c != x
    ensures ScanArm(Branch(Ident(a), [Forloop(x, Ident(c), [])]), Scan(Empty, [], t), fuel)
         == Some(Scan(Empty.(idents := {a}), [Empty.(idents := {c})], t[x := [c + "()"]]))
  {
    var s0 := Scan(Empty, [], t);
    assert Collect({}, Ident(a), t, fuel) == Some({a}) by {
      PlainCollect({}, a, t, fuel);
      assert {} + {a} == {a};
    }
    assert Introspect([Forloop(x, Ident(c), [])], t, fuel) == Some(Walked(Empty.(idents := {c}), t[x := [c + "()"]])) by {
      WalkEmptyLoop(x, c, t, fuel);
    }
    assert [] + [Empty.(idents := {c})] == [Empty.(idents := {c})];
  }

  /** The second arm of `LaterArmSeesBinding`: its condition `x` is expanded
      through the binding the first arm made. */
  lemma SecondArmExpands(a: string, x: string, c: string, item: Summary, t: Table, fuel: nat)
    requires NonEmptyValues(t) && fuel >= 1 && IsSegment(x) && c + "()" !in t && c + "()" != x
    ensures ScanArm(Branch(Ident(x), []), Scan(Empty.(idents := {a}), [item], t[x := [c + "()"]]), fuel)
         == Some(Scan(Empty.(idents := {a, c + "()"}), [item, Empty], t[x := [c + "()"]]))
  {
    var t1 := t[x := [c + "()"]];
    assert NonEmptyValues(t1);
    assert Collect({a}, Ident(x), t1, fuel) == Some({a, c + "()"}) by {
      SplitSegment(x);
      assert [x][1..] == [] && [c + "()"] + [] == [c + "()"];
      ExpandStep([x], t1, fuel - 1);
      assert Expand([c + "()"], t1, fuel - 1) == Some([c + "()"]);
      assert Join(".", [c + "()"]) == c + "()";
      assert {a} + {c + "()"} == {a, c + "()"};
    }
    var mid := Scan(Empty.(idents := {a, c + "()"}), [item], t1);
    assert Child([], mid, fuel) == Some(mid.(items := [item] + [Empty])) by {
      EmptyChild(mid, fuel);
    }
    assert [item] + [Empty] == [item, Empty];
  }

  /** `{% if a %}{% for x in c %}{% endfor %}{% elif x %}{% endif %}`: the
      second condition is expanded with the binding the first arm's body just
      made, because child scopes are walked at once and share the table
      (lines 47-50), so `x` is recorded as `c()`. */
  lemma LaterArmSeesBinding(a: string, x: string, c: string, t: Table, fuel: nat)
    requires NonEmptyValues(t) && fuel >= 1
    requires IsSegment(a) && IsSegment(x) && IsSegment(c)
    requires a !in t && c !in t && c + "()" !in t && c != x && c + "()" != x
    ensures Introspect([If([Branch(Ident(a), [Forloop(x, Ident(c), [])]), Branch(Ident(x), [])], NoElse)], t, fuel)
         == Some(Walked(Empty.(idents := {a, c, c + "()"}), t[x := [c + "()"]]))
  {
    var t1 := t[x := [c + "()"]];
    var arm1 := Branch(Ident(a), [Forloop(x, Ident(c), [])]);
    var arm2 := Branch(Ident(x), []);
    var item := Empty.(idents := {c});
    var s0 := Scan(Empty, [], t);
    var s1 := Scan(Empty.(idents := {a}), [item], t1);
    var s2 := Scan(Empty.(idents := {a, c + "()"}), [item, Empty], t1);
    assert ScanBranches([arm1, arm2], s0, fuel) == Some(s2) by {
      FirstArmBinds(a, x, c, t, fuel);
      SecondArmExpands(a, x, c, item, t, fuel);
      assert [arm1, arm2][1..] == [arm2] && [arm2][1..] == [];
      assert ScanBranches([arm2], s1, fuel) == Some(s2);
    }
    var node := If([arm1, arm2], NoElse);
    assert ScanIf([arm1, arm2], NoElse, s0, fuel) == Some(s2);
    assert ScanNode(node, s0, fuel) == Some(s2);
    assert [node][1..] == [];
    assert ScanNodes([node], s0, fuel) == Some(s2);
    assert s2.items[1..] == [Empty] && s2.items[1..][1..] == [];
    assert MergeAll(s2.local, s2.items) == MergeAll(Union(s2.local, item), [Empty]);
    assert MergeAll(Union(s2.local, item), [Empty]) == MergeAll(Union(Union(s2.local, item), Empty), []);
    assert Union(Union(s2.local, item), Empty) == Empty.(idents := {a, c, c + "()"});
  }

  /** The identifiers are not fully expanded against the table as it is at the
      end of the walk: `{{ x }}` before `{% for x in data %}` stays `x`,
      although `x` has become an alias for `data()` by then. */
  lemma StaleIdentifier()
    ensures var w := Introspect([VariableBlock(Ident("x")), Forloop("x", Ident("data"), [])], map[], 0);
            && w.Some? && "x" in w.value.summary.idents && "x" in w.value.table
            && Collect({}, Ident("x"), w.value.table, 1) == Some({"data()"})
  {
    RefThenLoop("x", "data", map[], 0);
    assert "data" + "()" == "data()";
    var t1: Table := map["x" := ["data()"]];
    SplitSegment("x");
    assert ["x"][1..] == [] && ["data()"] + [] == ["data()"];
    assert Expand(["x"], t1, 1) == Expand(["data()"], t1, 0);
    assert Join(".", ["data()"]) == "data()";
  }
}
