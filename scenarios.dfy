/** Templates walked end to end: a child template that extends a parent,
    loops over a two-segment path and includes a partial; chained aliases as
    nested loops produce them, and nested loops walked from a fresh table,
    over a two-segment and over a one-segment inner container; an
    `if`/`elif`/`else`; and the caller of src/introspection.rs:135-139
    running `new` on a fresh table. */
module Scenarios {
  import opened Wrappers
  import opened Paths
  import opened Syntax
  import opened Aliases
  import opened Introspection
  import opened IdentProperties

  /** `{% extends "base" %}{% for row in data.rows %}{{ row.name }}{% endfor %}{% include "partial" %}` */
  const Page: seq<Node> := [
    Extends("base"),
    Forloop("row", Ident("data.rows"), [VariableBlock(Ident("row.name"))]),
    Include(["partial"])
  ]

  /** `{% extends base %}{% for value in c1.c2 %}{{ value.field }}{% endfor %}{% include part %}`,
      for plain names with `c1` neither an alias nor the loop variable. */
  lemma ExtendsLoopInclude(base: string, value: string, c1: string, c2: string, field: string, part: string, t: Table, fuel: nat)
    requires NonEmptyValues(t) && fuel >= 1
    requires IsSegment(value) && IsSegment(field) && IsSegment(c1) && IsSegment(c2)
    requires forall i :: 0 <= i < |c1 + "." + c2| ==> (c1 + "." + c2)[i] != '[' && (c1 + "." + c2)[i] != ']'
    requires c1 != value && c1 !in t
    ensures Introspect([Extends(base), Forloop(value, Ident(c1 + "." + c2), [VariableBlock(Ident(value + "." + field))]), Include([part])], t, fuel)
         == Some(Walked(Summary({base}, {part}, {}, {c1 + "." + c2, c1 + "." + c2 + "()." + field}), t[value := [c1, c2 + "()"]]))
  {
    var c := c1 + "." + c2;
    SplitPair(c1, c2);
    assert MarkLoop([c1, c2]) == [c1, c2 + "()"];
    var loop := Forloop(value, Ident(c), [VariableBlock(Ident(value + "." + field))]);
    var nodes := [Extends(base), loop, Include([part])];
    var item := Empty.(idents := {c + "()." + field});
    var t1 := t[value := [c1, c2 + "()"]];
    var s0 := Scan(Empty, [], t);
    var s1 := Scan(Empty.(extended := {} + {base}), [], t);
    assert ScanNode(Extends(base), s0, fuel) == Some(s1);
    LoopItemStep(value, c, field, s1, fuel);
    var s2 := Scan(Summary({} + {base}, {}, {}, {} + {c}), [] + [item], t1);
    assert ScanNode(loop, s1, fuel) == Some(s2);
    assert Join("", [part]) == part;
    var s3 := s2.(local := s2.local.(includes := {} + {part}));
    assert ScanNode(Include([part]), s2, fuel) == Some(s3);
    assert nodes[1..][1..][1..] == [];
    assert ScanNodes(nodes[1..][1..], s2, fuel) == Some(s3);
    assert ScanNodes(nodes[1..], s1, fuel) == Some(s3);
    assert ScanNodes(nodes, s0, fuel) == Some(s3);
    assert s3.items == [item];
    assert MergeAll(s3.local, [item]) == MergeAll(Union(s3.local, item), []);
    assert Union(s3.local, item) == Summary({base}, {part}, {}, {c, c + "()." + field});
  }

  /** `Page` in the shape `ExtendsLoopInclude` speaks of. */
  lemma PageShape()
    ensures Page == [Extends("base"), Forloop("row", Ident("data" + "." + "rows"), [VariableBlock(Ident("row" + "." + "name"))]), Include(["partial"])]
  {
    assert "row" + "." + "name" == "row.name";
    assert "data" + "." + "rows" == "data.rows";
  }

  /** What walking `Page` yields: the container and the resolved loop item,
      and `row` left bound to `data.rows()`. */
  lemma PageSummary(fuel: nat)
    requires fuel >= 1
    ensures Introspect(Page, map[], fuel)
         == Some(Walked(Summary({"base"}, {"partial"}, {}, {"data.rows", "data.rows().name"}),
                        map["row" := ["data", "rows()"]]))
  {
    assert IsSegment("row") && IsSegment("name") && IsSegment("data") && IsSegment("rows") && "data" != "row";
    assert "data" + "." + "rows" == "data.rows";
    assert forall i :: 0 <= i < |"data.rows"| ==> "data.rows"[i] != '[' && "data.rows"[i] != ']';
    ExtendsLoopInclude("base", "row", "data", "rows", "name", "partial", map[], fuel);
    PageShape();
    PageResult(Introspect(Page, map[], fuel));
  }

  /** The result of `ExtendsLoopInclude` for `Page`, in literal form. */
  lemma PageResult(w: Option<Walked>)
    requires w == Some(Walked(Summary({"base"}, {"partial"}, {}, {"data" + "." + "rows", "data" + "." + "rows" + "()." + "name"}),
                              map[]["row" := ["data", "rows" + "()"]]))
    ensures w == Some(Walked(Summary({"base"}, {"partial"}, {}, {"data.rows", "data.rows().name"}),
                             map["row" := ["data", "rows()"]]))
  {
    assert "data" + "." + "rows" == "data.rows";
    assert "data.rows" + "()." + "name" == "data.rows().name";
    assert "rows" + "()" == "rows()";
  }

  /** The same template walked by the imperative `new` on a freshly created,
      empty table, as the original's caller does. */
  method WalkPage() returns (ins: Option<TeraIntrospection>)
    ensures ins.Some?
    ensures ins.value.extended == {"base"} && ins.value.includes == {"partial"}
    ensures ins.value.macros == {} && ins.value.idents == {"data.rows", "data.rows().name"}
  {
    var mapping := new AliasTable();
    PageSummary(1);
    ins := TeraIntrospection.New(Page, mapping, 1);
  }

  /** Nested loops store their aliases unexpanded (`for item in data.items`,
      then `for v in item.values`); expansion resolves them in two steps at
      the point of use, and no fewer. */
  lemma NestedLoopAliases()
    ensures var t := map["item" := ["data", "items()"], "v" := ["item", "values()"]];
            && Expand(["v", "abc"], t, 2) == Some(["data", "items()", "values()", "abc"])
            && Expand(["v", "abc"], t, 1) == None
  {
    var t := map["item" := ["data", "items()"], "v" := ["item", "values()"]];
    assert "data" != "item" && "data" != "v";
    assert t["v"] == ["item", "values()"] && t["item"] == ["data", "items()"] && "data" !in t;
    ExpandStep(["v", "abc"], t, 1);
    ExpandStep(["v", "abc"], t, 0);
    assert ["item", "values()"] + ["v", "abc"][1..] == ["item", "values()", "abc"];
    ExpandStep(["item", "values()", "abc"], t, 0);
    assert ["data", "items()"] + ["item", "values()", "abc"][1..] == ["data", "items()", "values()", "abc"];
  }

  /** `{% for item in d.i %}{% for v in item.vals %}{{ v.abc }}{% endfor %}{% endfor %}`
      on a fresh table: the inner container is resolved through the outer
      loop's alias, and so is the inner item (lines 41-44, 100-109). With
      the names of the test at lines 147-156 this gives `data.items`,
      `data.items().values` and `data.items().values().abc`. */
  lemma NestedLoopWalk(d: string, i: string, item: string, v: string, vals: string, abc: string, fuel: nat)
    requires IsSegment(d) && IsSegment(i) && IsSegment(item) && IsSegment(v) && IsSegment(vals) && IsSegment(abc)
    requires d != item && d != v && item != v && fuel >= 2
    ensures var x := d + "." + i + "()." + vals;
            (Introspect([Forloop(item, Ident(d + "." + i), [Forloop(v, Ident(item + "." + vals), [VariableBlock(Ident(v + "." + abc))])])], map[], fuel)
             == Some(Walked(Empty.(idents := {d + "." + i, x, x + "()." + abc}), map[item := [d, i + "()"], v := [item, vals + "()"]])))
  {
    var x := d + "." + i + "()." + vals;
    var t1 := map[item := [d, i + "()"]];
    var inner := [Forloop(v, Ident(item + "." + vals), [VariableBlock(Ident(v + "." + abc))])];
    BindMarkedPair(item, d, i, map[]);
    PlainPairCollected(d, i, t1, fuel);
    InnerLoopWalk(d, i, item, v, vals, abc, fuel);
    LoopWalk(item, d + "." + i, inner, map[], fuel);
    assert {d + "." + i} + {x, x + "()." + abc} == {d + "." + i, x, x + "()." + abc};
  }

  /** The inner loop of `NestedLoopWalk`, walked on the outer loop's table. */
  lemma InnerLoopWalk(d: string, i: string, item: string, v: string, vals: string, abc: string, fuel: nat)
    requires IsSegment(d) && IsSegment(i) && IsSegment(item) && IsSegment(v) && IsSegment(vals) && IsSegment(abc)
    requires d != item && d != v && item != v && fuel >= 2
    ensures var x := d + "." + i + "()." + vals;
            var t1 := map[item := [d, i + "()"]];
            (Introspect([Forloop(v, Ident(item + "." + vals), [VariableBlock(Ident(v + "." + abc))])], t1, fuel)
             == Some(Walked(Empty.(idents := {x, x + "()." + abc}), t1[v := [item, vals + "()"]])))
  {
    var t1 := map[item := [d, i + "()"]];
    var t2 := t1[v := [item, vals + "()"]];
    var c := item + "." + vals;
    BindMarkedPair(v, item, vals, t1);
    AliasHeadExpands(d, i, item, vals, t2, fuel - 1);
    JoinMarkedTriple(d, i, vals);
    SplitPair(item, vals);
    LoopItemExpands(v, c, abc, t1, fuel);
  }

  /** `add_mapping` of a two-segment loop container. */
  lemma BindMarkedPair(value: string, a: string, b: string, t: Table)
    requires IsSegment(a) && IsSegment(b)
    ensures Bind(t, value, Ident(a + "." + b), true) == t[value := [a, b + "()"]]
  {
    SplitPair(a, b);
    assert MarkLoop([a, b]) == [a, b + "()"];
  }

  /** `item.vals`, with `item` an alias for `[d, i()]` and `d` not an alias. */
  lemma AliasHeadExpands(d: string, i: string, item: string, vals: string, u: Table, fuel: nat)
    requires NonEmptyValues(u) && fuel >= 1
    requires IsSegment(item) && IsSegment(vals)
    requires item in u && u[item] == [d, i + "()"] && d !in u
    ensures Expand(SplitIdent(item + "." + vals), u, fuel) == Some([d, i + "()", vals])
  {
    SplitPair(item, vals);
    ExpandStep([item, vals], u, fuel - 1);
    assert [d, i + "()"] + [item, vals][1..] == [d, i + "()", vals];
  }

  /** `d.i`, with `d` not an alias, is recorded as written. */
  lemma PlainPairCollected(d: string, i: string, u: Table, fuel: nat)
    requires NonEmptyValues(u) && IsSegment(d) && IsSegment(i) && d !in u
    ensures Collect({}, Ident(d + "." + i), u, fuel) == Some({d + "." + i})
  {
    SplitPair(d, i);
    CollectIs(d + "." + i, u, fuel, [d, i]);
    JoinPair(d, i);
  }

  lemma JoinMarkedTriple(d: string, i: string, vals: string)
    ensures Join(".", [d, i + "()", vals]) == d + "." + i + "()." + vals
  {
    JoinTriple(d, i + "()", vals);
    MarkedMiddle(d, i, vals);
  }

  lemma JoinTriple(a: string, b: string, c: string)
    ensures Join(".", [a, b, c]) == a + "." + (b + "." + c)
  {
    assert [a, b, c][1..] == [b, c];
    JoinPair(b, c);
  }

  lemma MarkedMiddle(a: string, b: string, c: string)
    ensures a + "." + (b + "()" + "." + c) == a + "." + b + "()." + c
  {
  }

  /** `NestedLoopWalk` with the names of the test at lines 147-156. */
  lemma TestNestedLoops()
    ensures var w := Introspect([Forloop("item", Ident("data.items"), [Forloop("v", Ident("item.values"), [VariableBlock(Ident("v.abc"))])])], map[], 2);
            w.Some? && w.value.summary.idents == {"data.items", "data.items().values", "data.items().values().abc"}
  {
    NestedLoopWalk("data", "items", "item", "v", "values", "abc", 2);
    assert "data" + "." + "items" == "data.items";
    assert "item" + "." + "values" == "item.values";
    assert "v" + "." + "abc" == "v.abc";
    assert "data" + "." + "items" + "()." + "values" == "data.items().values";
    assert "data.items().values" + "()." + "abc" == "data.items().values().abc";
  }

  /** `{% for item in d.i %}{% for v in item %}{{ v.x }}{% endfor %}{% endfor %}`
      on a fresh table. The inner container `item` is one segment, so `v` is
      bound to `[item()]` (lines 119-125). The container is recorded resolved,
      as `d.i()`, but the item is recorded as `item().x`: `item()` is not an
      alias, so expansion stops at it. */
  lemma NestedBareLoop(d: string, i: string, item: string, v: string, x: string, fuel: nat)
    requires IsSegment(d) && IsSegment(i) && IsSegment(item) && IsSegment(v) && IsSegment(x)
    requires d != item && d != v && item != v && item + "()" != v && fuel >= 1
    ensures (Introspect([Forloop(item, Ident(d + "." + i), [Forloop(v, Ident(item), [VariableBlock(Ident(v + "." + x))])])], map[], fuel)
             == Some(Walked(Empty.(idents := {d + "." + i, d + "." + i + "()", item + "()." + x}),
                            map[item := [d, i + "()"], v := [item + "()"]])))
  {
    var t1 := map[item := [d, i + "()"]];
    var inner := [Forloop(v, Ident(item), [VariableBlock(Ident(v + "." + x))])];
    BindMarkedPair(item, d, i, map[]);
    PlainPairCollected(d, i, t1, fuel);
    InnerBareLoop(d, i, item, v, x, fuel);
    LoopWalk(item, d + "." + i, inner, map[], fuel);
    assert {d + "." + i} + {d + "." + i + "()", item + "()." + x} == {d + "." + i, d + "." + i + "()", item + "()." + x};
  }

  /** The inner loop of `NestedBareLoop`, walked on the outer loop's table. */
  lemma InnerBareLoop(d: string, i: string, item: string, v: string, x: string, fuel: nat)
    requires IsSegment(d) && IsSegment(i) && IsSegment(item) && IsSegment(v) && IsSegment(x)
    requires d != item && d != v && item != v && item + "()" != v && fuel >= 1
    ensures var t1 := map[item := [d, i + "()"]];
            (Introspect([Forloop(v, Ident(item), [VariableBlock(Ident(v + "." + x))])], t1, fuel)
             == Some(Walked(Empty.(idents := {d + "." + i + "()", item + "()." + x}), t1[v := [item + "()"]])))
  {
    var t1 := map[item := [d, i + "()"]];
    var t2 := t1[v := [item + "()"]];
    assert |item + "()"| != |item|;
    BindMarkedSingle(v, item, t1);
    AliasSingleExpands(d, i, item, t2, fuel);
    JoinMarkedPair(d, i);
    LoopOverAliasItem(v, item, x, t1, fuel);
  }

  /** `add_mapping` of a one-segment loop container. */
  lemma BindMarkedSingle(value: string, a: string, t: Table)
    requires IsSegment(a)
    ensures Bind(t, value, Ident(a), true) == t[value := [a + "()"]]
  {
    SingleSegment(a);
    assert MarkLoop([a]) == [a + "()"];
  }

  /** `item`, an alias for `[d, i()]` with `d` not an alias. */
  lemma AliasSingleExpands(d: string, i: string, item: string, u: Table, fuel: nat)
    requires NonEmptyValues(u) && fuel >= 1
    requires item in u && u[item] == [d, i + "()"] && d !in u
    ensures Expand([item], u, fuel) == Some([d, i + "()"])
  {
    ExpandStep([item], u, fuel - 1);
    assert [d, i + "()"] + [item][1..] == [d, i + "()"];
  }

  lemma JoinMarkedPair(d: string, i: string)
    ensures Join(".", [d, i + "()"]) == d + "." + i + "()"
  {
    JoinPair(d, i + "()");
  }

  /** `NestedBareLoop` with the names of the test at lines 147-156. */
  lemma TestBareLoop()
    ensures var w := Introspect([Forloop("item", Ident("data.items"), [Forloop("v", Ident("item"), [VariableBlock(Ident("v.x"))])])], map[], 1);
            w.Some? && w.value.summary.idents == {"data.items", "data.items()", "item().x"}
  {
    NestedBareLoop("data", "items", "item", "v", "x", 1);
    assert "data" + "." + "items" == "data.items";
    assert "v" + "." + "x" == "v.x";
    assert "data" + "." + "items" + "()" == "data.items()";
    assert "item" + "()." + "x" == "item().x";
  }

  /** `x` bound to `a.b`, then `y` to `x.c`, with `add_mapping` and `is_loop`
      false: `y.d` expands to `a.b.c.d` in two substitutions. */
  lemma Chain(x: string, y: string, a: string, b: string, c: string, d: string)
    requires IsSegment(x) && IsSegment(a) && IsSegment(b) && IsSegment(c)
    requires x != y && a != x && a != y
    ensures Expand([y, d], Bind(Bind(map[], x, Ident(a + "." + b), false), y, Ident(x + "." + c), false), 2)
         == Some([a, b, c, d])
  {
    var t1 := Bind(map[], x, Ident(a + "." + b), false);
    var t := Bind(t1, y, Ident(x + "." + c), false);
    SplitPair(a, b);
    SplitPair(x, c);
    assert t[y] == [x, c] && t[x] == t1[x] == [a, b] && a !in t;
    ExpandStep([y, d], t, 1);
    assert [x, c] + [y, d][1..] == [x, c, d];
    ExpandStep([x, c, d], t, 0);
    assert [a, b] + [x, c, d][1..] == [a, b, c, d];
  }

  /** An arm `{% if x %}` or `{% elif x %}` with an empty body, for a plain
      name that is not an alias: `x` is recorded and an empty result pushed. */
  lemma PlainArm(x: string, acc: Scan, fuel: nat)
    requires NonEmptyValues(acc.table) && IsSegment(x) && x !in acc.table
    ensures ScanArm(Branch(Ident(x), []), acc, fuel)
         == Some(acc.(local := acc.local.(idents := acc.local.idents + {x}), items := acc.items + [Empty]))
  {
    PlainCollect(acc.local.idents, x, acc.table, fuel);
    EmptyChild(acc.(local := acc.local.(idents := acc.local.idents + {x})), fuel);
  }

  /** The arms are walked in order, each from the state the last one left. */
  lemma BranchesStep(arm: Branch, rest: seq<Branch>, acc: Scan, next: Scan, fuel: nat)
    requires NonEmptyValues(acc.table) && ScanArm(arm, acc, fuel) == Some(next)
    ensures ScanBranches([arm] + rest, acc, fuel) == ScanBranches(rest, next, fuel)
  {
    assert ([arm] + rest)[0] == arm && ([arm] + rest)[1..] == rest;
  }

  /** The two arms `{% if a %}{% elif b %}` with empty bodies, from any
      state. */
  lemma TwoPlainArms(a: string, b: string, acc: Scan, fuel: nat)
    requires NonEmptyValues(acc.table) && IsSegment(a) && IsSegment(b) && a !in acc.table && b !in acc.table
    ensures ScanBranches([Branch(Ident(a), []), Branch(Ident(b), [])], acc, fuel)
         == Some(acc.(local := acc.local.(idents := acc.local.idents + {a} + {b}), items := acc.items + [Empty] + [Empty]))
  {
    var arm1, arm2 := Branch(Ident(a), []), Branch(Ident(b), []);
    var s1 := acc.(local := acc.local.(idents := acc.local.idents + {a}), items := acc.items + [Empty]);
    var s2 := s1.(local := s1.local.(idents := s1.local.idents + {b}), items := s1.items + [Empty]);
    PlainArm(a, acc, fuel);
    PlainArm(b, s1, fuel);
    assert ScanBranches([arm2], s1, fuel) == Some(s2) by {
      BranchesStep(arm2, [], s1, s2, fuel);
      assert [arm2] + [] == [arm2];
    }
    BranchesStep(arm1, [arm2], acc, s1, fuel);
    assert [arm1] + [arm2] == [arm1, arm2];
  }

  /** An `else` body `{{ c }}`, for a plain name that is not an alias. */
  lemma PlainElse(c: string, acc: Scan, fuel: nat)
    requires NonEmptyValues(acc.table) && IsSegment(c) && c !in acc.table
    ensures Child([VariableBlock(Ident(c))], acc, fuel) == Some(acc.(items := acc.items + [Empty.(idents := {c})]))
  {
    PlainCollect({}, c, acc.table, fuel);
    WalkOneRef(Ident(c), acc.table, fuel);
    assert {} + {c} == {c};
  }

  /** `{% if a %}{% elif b %}{% else %}{{ c }}{% endif %}`: both conditions
      and the `else` body are collected, for plain names that are not
      aliases. */
  lemma IfElse(a: string, b: string, c: string, t: Table, fuel: nat)
    requires NonEmptyValues(t) && IsSegment(a) && IsSegment(b) && IsSegment(c)
    requires a !in t && b !in t && c !in t
    ensures Introspect([If([Branch(Ident(a), []), Branch(Ident(b), [])], Else([VariableBlock(Ident(c))]))], t, fuel)
         == Some(Walked(Empty.(idents := {a, b, c}), t))
  {
    var node := If([Branch(Ident(a), []), Branch(Ident(b), [])], Else([VariableBlock(Ident(c))]));
    var s0 := Scan(Empty, [], t);
    var s3 := Scan(Empty.(idents := {a, b}), [Empty, Empty, Empty.(idents := {c})], t);
    assert ScanNode(node, s0, fuel) == Some(s3) by {
      IfElseScan(a, b, c, s0, fuel);
      assert {} + {a} + {b} == {a, b};
      assert [] + [Empty] + [Empty] + [Empty.(idents := {c})] == [Empty, Empty, Empty.(idents := {c})];
    }
    assert [node][1..] == [];
    assert ScanNodes([node], s0, fuel) == Some(s3);
    MergedArms(a, b, c);
  }

  /** The `if` of `IfElse`, from any state. */
  lemma IfElseScan(a: string, b: string, c: string, acc: Scan, fuel: nat)
    requires NonEmptyValues(acc.table) && IsSegment(a) && IsSegment(b) && IsSegment(c)
    requires a !in acc.table && b !in acc.table && c !in acc.table
    ensures ScanNode(If([Branch(Ident(a), []), Branch(Ident(b), [])], Else([VariableBlock(Ident(c))])), acc, fuel)
         == Some(acc.(local := acc.local.(idents := acc.local.idents + {a} + {b}),
                      items := acc.items + [Empty] + [Empty] + [Empty.(idents := {c})]))
  {
    var arms := [Branch(Ident(a), []), Branch(Ident(b), [])];
    var otherwise := Else([VariableBlock(Ident(c))]);
    var s2 := acc.(local := acc.local.(idents := acc.local.idents + {a} + {b}), items := acc.items + [Empty] + [Empty]);
    TwoPlainArms(a, b, acc, fuel);
    PlainElse(c, s2, fuel);
    assert ScanIf(arms, otherwise, acc, fuel) == Child(otherwise.body, s2, fuel);
    assert ScanNode(If(arms, otherwise), acc, fuel) == ScanIf(arms, otherwise, acc, fuel);
  }

  /** The merge at the end of `IfElse`. */
  lemma MergedArms(a: string, b: string, c: string)
    ensures MergeAll(Empty.(idents := {a, b}), [Empty, Empty, Empty.(idents := {c})]) == Empty.(idents := {a, b, c})
  {
    var cs := Empty.(idents := {c});
    var items := [Empty, Empty, cs];
    var l := Empty.(idents := {a, b});
    assert Union(l, Empty) == l;
    assert items[1..] == [Empty, cs] && [Empty, cs][1..] == [cs] && [cs][1..] == [];
    assert MergeAll(l, items) == MergeAll(l, [Empty, cs]);
    assert MergeAll(l, [Empty, cs]) == MergeAll(l, [cs]);
    assert MergeAll(l, [cs]) == MergeAll(Union(l, cs), []);
    assert Union(l, cs) == Empty.(idents := {a, b, c});
  }
}
