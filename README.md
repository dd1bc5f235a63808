# tera-introspection in Dafny

tera-introspection walks a parsed Tera template and reports what it depends on.
It collects four sets: the templates it `extends`, the templates it `include`s,
the macro files it imports, and the variable paths it references.
Loop variables are aliases: inside `{% for row in data.rows %}`, a reference
`row.name` is recorded as `data.rows().name`. The `()` marks "one element of".
The alias table is a single mutable map shared by the whole walk, child scopes
included.

This project models `src/introspection.rs` of that repository:

- `Paths` is `split_ident` and the `join` it is used with.
- `Syntax` holds the node and expression variants the walk looks at.
- `Aliases` holds `expand_names` and `add_mapping`, plus the table as the class
  `AliasTable`.
- `Introspection` holds `add_ident` (`Collect`) and the walk twice over:
  - as pure functions (`Introspect` and the scan functions below it);
  - as the class `TeraIntrospection`, whose static method `New` runs the two
    loops of the original over the mutable table. `New` is proved to compute
    exactly what `Introspect` specifies.
- `WalkProperties` states what the walk keeps, against reference definitions
  that do not use the table.
- `IdentProperties` and `Scenarios` state what identifiers get recorded, on
  general and concrete templates.

`expand_names` recurses without a bound and does not terminate on a cyclic
table. Here it takes a `fuel` depth bound: `None` means more substitutions were
needed. The walk passes the bound down, so `None` from `Introspect` or `New`
stands where the original overflows its stack.
`IntrospectMoreFuel` and `ExpandMoreFuel` show the bound never changes a result
that was reached.

The Rust field `extends` is a Dafny keyword, so it is named `extended` here.

Four behaviours of the code may be unexpected. The model follows the code, and each behaviour is stated as a lemma:

- Identifiers are expanded against the table as it is when they are met. So a
  reference made before a loop rebinds its head stays as written
  (`IdentProperties.StaleIdentifier`).
  A later `elif` condition sees a binding made inside an earlier arm's body
  (`IdentProperties.LaterArmSeesBinding`).
- `trim_end_matches(']')` removes every trailing `]` of a piece, not just one
  (`Paths.TrimEndBrackets`).
- A loop binds its variable before its container is collected. So
  `for x in x.y` never terminates
  (`IdentProperties.LoopOverOwnVariableDiverges`).
- Items of a loop over a container of two or more segments are resolved
  through the aliases of outer loops (`IdentProperties.LoopItemExpands`,
  `Scenarios.NestedLoopWalk`). Items of a loop over a one-segment container
  `a` are not: the loop variable is bound to `a()`, which is never an alias.
  So inside `for item in d.i`, the loop `for v in item` records its container
  as `d.i()` but `{{ v.x }}` as `item().x` (`IdentProperties.LoopOverAliasItem`,
  `Scenarios.NestedBareLoop`).

## Model

| member | source | states |
|---|---|---|
| Paths.SplitIdent | src/introspection.rs:93-98 | splitting on `.` and `[` gives one piece more than there are separators; no piece holds a separator or ends in `]` |
| Paths.TrimEndBrackets | src/introspection.rs:96 | the result is a prefix of the input, does not end in `]`, and only `]` characters were removed |
| Paths.SplitRaw | src/introspection.rs:95 | `str::split` on `.` and `[` gives one piece per separator plus one, none containing a separator |
| Paths.SplitRawInverse | src/introspection.rs:95 | putting the separators back between the pieces of `str::split` gives the text back |
| Paths.SplitRawUnique | src/introspection.rs:95 | any separator-free pieces, as many as `str::split` returns, that interleave with the separators of the text to give the text are exactly the pieces `str::split` returns |
| Paths.SplitBracketed | src/introspection.rs:92-98 | the bracket form `p0[p1]…[pn]` and the dot form `p0.p1.….pn` of a path both split to its segments |
| Paths.SplitDotPrefix | src/introspection.rs:93-98 | a leading segment and a dot split off whatever follows, so dot and bracket notation mix |
| Paths.MixedNotations | src/introspection.rs:92-98 | for any three segments, `a.b[c]` and `a[b][c]` both split to `[a, b, c]` |
| Paths.SplitNotations | src/introspection.rs:92 | `a.b[c]` and `a[b][c]` both split to `["a", "b", "c"]` |
| Paths.SplitJoin | src/introspection.rs:93-98 | splitting the dot-join of segments gives the segments back |
| Paths.JoinSplit | src/introspection.rs:93-98 | for text without brackets, dot-joining its split gives the text back |
| Aliases.Expand | src/introspection.rs:100-109 | a path whose head is not an alias is returned unchanged; a result's head is never an alias; the tail of the input is kept as the tail of the result; well-formed paths stay well-formed |
| Aliases.ExpandStep | src/introspection.rs:102-105 | when the head is an alias, one step replaces it by the alias's path and keeps the rest |
| Aliases.ExpandMoreFuel | src/introspection.rs:100-109 | more fuel never changes a result that was reached |
| Aliases.ExpandDeterministic | src/introspection.rs:100-109 | two terminating expansions of one path agree, whatever their fuel |
| Aliases.ExpandIdempotent | src/introspection.rs:100-109 | an expanded path expands to itself |
| Aliases.ExpandAppend | src/introspection.rs:100-109 | whatever follows a path is carried through expansion unchanged: `p + q` expands to the expansion of `p`, then `q`, and fails exactly when `p` does |
| Aliases.ExpandMarked | src/introspection.rs:100-125 | a loop-marked path of two or more segments with a field after it expands to the marked expansion of the path, then the field |
| Aliases.SelfAliasDiverges | src/introspection.rs:100-109 | an alias whose path starts with itself makes expansion fail for every fuel |
| Aliases.RankedTerminates | src/introspection.rs:100-109 | on a table whose aliases can be ranked, so that each path starts with a plain name or a lower-ranked alias, expansion finishes given more fuel than the head's rank |
| Aliases.MarkLoop | src/introspection.rs:119-123 | the loop marker appends `()` to the last segment only and keeps the path well-formed |
| Aliases.Bind | src/introspection.rs:111-126 | only an identifier is bound; the alias is overwritten with the split path (marked for a loop); every other binding is kept; the table stays well-formed |
| Aliases.AliasTable.constructor | src/introspection.rs:138 | a fresh table is empty |
| Aliases.AliasTable.AddMapping | src/introspection.rs:111-126 | the table becomes exactly `Bind` of the old table |
| Introspection.Collect | src/introspection.rs:84-90 | a non-identifier adds nothing; an identifier adds exactly the dot-join of its expanded split, and only that; it fails exactly when expansion does |
| Introspection.TeraIntrospection.constructor | src/introspection.rs:62-67 | the object holds the four given sets |
| Introspection.TeraIntrospection.Merge | src/introspection.rs:76-81 | each set becomes the union of its old contents and the other's |
| Introspection.TeraIntrospection.WalkNode | src/introspection.rs:27-59 | one turn of the first loop fails exactly when `ScanNode` does; otherwise the new local sets, pushed objects and table are `ScanNode`'s, earlier objects kept and new ones fresh |
| Introspection.TeraIntrospection.WalkForloop | src/introspection.rs:40-44 | the loop binds through `AddMapping`, collects the container and pushes the body's object, exactly as `ScanForloop` |
| Introspection.TeraIntrospection.WalkIf | src/introspection.rs:46-53 | the arms and then the `else` body, exactly as `ScanIf` |
| Introspection.TeraIntrospection.WalkConditions | src/introspection.rs:47-50 | the `if`/`elif` loop, exactly as `ScanBranches`, stopping at the first arm that fails |
| Introspection.TeraIntrospection.WalkArm | src/introspection.rs:48-49 | one arm collects its condition and pushes its body's object, exactly as `ScanArm` |
| Introspection.TeraIntrospection.PushChild | src/introspection.rs:38 | the child scope is walked by a recursive `New` on the shared table and its fresh object pushed; it fails exactly when `Introspect` on the body does |
| Introspection.TeraIntrospection.New | src/introspection.rs:19-74 | the imperative walk over the shared table fails exactly when `Introspect` does; otherwise it returns a fresh object holding `Introspect`'s summary and leaves the table as `Introspect` does |
| WalkProperties.IntrospectStructure | src/introspection.rs:26-71 | the `extends`, `includes` and `macros` sets are exactly the names declared anywhere in the tree; the table changes only at the tree's loop variables |
| WalkProperties.ScanNodesStructure | src/introspection.rs:26-60 | each turn of the first loop adds exactly the dependencies of its node, at any depth, and rebinds only that node's loop variables |
| WalkProperties.ScanNodeStructure | src/introspection.rs:27-59 | `ScanNode`: one node adds exactly its own dependency names, at any depth, and rebinds exactly its loop variables |
| WalkProperties.ForloopStructure | src/introspection.rs:40-44 | `ScanForloop`: a loop adds its body's dependencies and rebinds its variable (when the container is an identifier) and the body's loop variables |
| WalkProperties.IfStructure | src/introspection.rs:46-53 | `ScanIf`: an `if` adds the dependencies of every arm and of the `else` body |
| WalkProperties.ScanBranchesStructure | src/introspection.rs:47-50 | `ScanBranches`: the arms add the dependencies of all their bodies |
| WalkProperties.ScanArmStructure | src/introspection.rs:48-49 | `ScanArm`: one arm adds its body's dependencies and rebinds its body's loop variables |
| WalkProperties.ChildStructure | src/introspection.rs:38 | `Child`: a pushed child result carries its body's dependencies, and the table changes at the body's loop variables |
| WalkProperties.IntrospectValid | src/introspection.rs:19-74 | `Introspect`: a table whose paths are well-formed stays so, so every recorded identifier is expanded against paths as `add_mapping` stores them |
| WalkProperties.ScanNodesGrows | src/introspection.rs:26-60 | `ScanNodes`: the local sets only grow, earlier results are kept in order, and exactly one result is pushed per child scope of the nodes |
| WalkProperties.ScanNodeGrows | src/introspection.rs:27-59 | `ScanNode`: one result per child scope the node opens (one for a block or loop, one per arm and `else` of an `if`, none otherwise) |
| WalkProperties.ForloopGrows | src/introspection.rs:40-44 | `ScanForloop`: a loop pushes exactly one result |
| WalkProperties.IfGrows | src/introspection.rs:46-53 | `ScanIf`: an `if` pushes one result per arm, and one more for an `else` |
| WalkProperties.ScanBranchesGrows | src/introspection.rs:47-50 | `ScanBranches`: one result per arm |
| WalkProperties.ScanArmGrows | src/introspection.rs:48-49 | `ScanArm`: one arm pushes one result, and its condition only adds to the identifiers |
| WalkProperties.ChildGrows | src/introspection.rs:38 | `Child`: pushes exactly one result and leaves the local sets as they were |
| WalkProperties.UnionIsJoin | src/introspection.rs:76-81 | `Union`: the merge contains both summaries and is contained in anything that contains both |
| WalkProperties.MergeAllIsJoin | src/introspection.rs:69-71 | `MergeAll`: the result contains the local sets and every pushed result, and nothing more |
| WalkProperties.MergeAllPush | src/introspection.rs:69-71 | merging one more item is one more union |
| WalkProperties.IntrospectMoreFuel | src/introspection.rs:19-74 | a walk that finishes gives the same summary and table with any larger fuel |
| WalkProperties.CollectMoreFuel | src/introspection.rs:84-90 | `add_ident` gives the same set with any larger fuel |
| IdentProperties.CollectedIsExpanded | src/introspection.rs:84-90 | an identifier recorded against a table is fully expanded against it: collecting it again adds nothing |
| IdentProperties.WalkOneRef | src/introspection.rs:55-57 | walking one `{{ e }}` gives exactly what `add_ident` collects, and leaves the table alone |
| IdentProperties.CollectTwice | src/introspection.rs:55-57 | a reference written twice is recorded once, and the walk ends as if it were written once |
| IdentProperties.LoopStep | src/introspection.rs:40-44 | for a body of one reference `{{ r }}`, a loop binds its variable, then collects the container and the reference with the binding in place |
| IdentProperties.LoopItemStep | src/introspection.rs:40-44 | for a container `c` without brackets whose head, plain or marked, is neither an alias nor the loop variable, a loop with body `{{ value.field }}` adds `c` and pushes a child holding `c().field` |
| IdentProperties.LoopItemResolves | src/introspection.rs:40-44 | inside `for value in c`, `value.field` is recorded as `c().field` and the container as `c`; `value` stays bound to the marked split of `c` |
| IdentProperties.LoopWalk | src/introspection.rs:40-44 | a one-loop template records the container, expanded with the variable already bound, merged with the summary of the body walked on the new table, and leaves the body's table |
| IdentProperties.OneLoopWalk | src/introspection.rs:40-44 | for a body `{{ r }}`, the loop records what `add_ident` gives for the container and for `r`, both on the table with the variable bound |
| IdentProperties.LoopItemExpands | src/introspection.rs:40-44 | for any container of two or more segments whose expansion finishes, the container is recorded as its expansion `x` and `value.field` as `x().field`, so items resolve through outer loops |
| IdentProperties.LoopOverAliasItem | src/introspection.rs:111-126 | for a one-segment container `a`, the container is recorded as its expansion but `value.field` as `a().field`, unexpanded |
| IdentProperties.LoopOverOwnVariableDiverges | src/introspection.rs:40-44 | `for x in x.y` never finishes, whatever the fuel and the body |
| IdentProperties.EmptyLoopStep | src/introspection.rs:40-44 | a loop over a plain name with an empty body adds the name, pushes an empty child and binds the variable to `c()` |
| IdentProperties.RefThenLoop | src/introspection.rs:26-57 | `{{ x }}` followed by `for x in c` records `x` as written, then `c`, and ends with `x` bound |
| IdentProperties.StaleIdentifier | src/introspection.rs:40-57 | after the walk, a recorded identifier can be an alias in the final table that expands to something else |
| IdentProperties.LaterArmSeesBinding | src/introspection.rs:46-50 | a later `elif` condition is expanded with the binding made inside an earlier arm's body |
| Scenarios.ExtendsLoopInclude | src/introspection.rs:26-74 | `extends`, a loop over a two-segment container with one item reference, and `include` yield the parent, the partial, the container and the resolved item |
| Scenarios.PageSummary | src/introspection.rs:19-74 | the concrete template gives `{base}`, `{partial}`, no macros and `{data.rows, data.rows().name}`, with `row` bound to `data.rows()` |
| Scenarios.WalkPage | src/introspection.rs:135-139 | `New` on a fresh table and the concrete template returns those four sets |
| Scenarios.NestedLoopAliases | src/introspection.rs:100-109 | aliases stored by nested loops resolve in two substitutions at the point of use, and not in one |
| Scenarios.NestedLoopWalk | src/introspection.rs:147-156 | nested loops `for item in d.i` and `for v in item.vals` with `{{ v.abc }}`, walked from a fresh table, record `d.i`, `d.i().vals` and `d.i().vals().abc` |
| Scenarios.TestNestedLoops | src/introspection.rs:147-156 | with the test's names, the nested loops record `data.items`, `data.items().values` and `data.items().values().abc` |
| Scenarios.NestedBareLoop | src/introspection.rs:119-125 | inside `for item in d.i`, `for v in item` with `{{ v.x }}` records `d.i`, `d.i()` and the unresolved `item().x` |
| Scenarios.TestBareLoop | src/introspection.rs:119-125 | the same with concrete names: `data.items`, `data.items()` and `item().x` |
| Scenarios.Chain | src/introspection.rs:100-126 | two chained bindings expand `y.d` to `a.b.c.d` |
| Scenarios.IfElse | src/introspection.rs:46-53 | in `if a`/`elif b`/`else {{ c }}`, both conditions and the `else` body are collected |

## Left out

- `src/errors.rs` and `src/lib.rs` are not part of this model. The first holds the error type. The second declares the modules and re-exports `Error`, `Result`, `TeraIntrospection`, `Node` and `parse`.
- Parsing is not part of this model. Templates are given as already-parsed trees of the variants the walk matches. Tera's other expression forms are one `NonIdent` case, and its other nodes are one `Other` case. The walk ignores both.
- The loop's optional key variable (`for k, v in …`) is not represented, because the walk reads only the value variable.
- `serde` derives and `Debug` are left out, because they do not affect the walk.
- `HashSet` iteration order is left out: sets are Dafny `set`s.
- Aliases.Expand: termination is bounded by `fuel`, and `None` stands for the original's unbounded recursion and stack overflow. The precondition `NonEmptyValues` is sufficient for the `expect` at line 101 never to fire. `split_ident` never produces an empty path, so every table built by `add_mapping` meets it.
- Aliases.Expand: a table passed in by a caller with an alias for the empty path is not modelled. All of `Expand`, `Collect`, `Introspect` and `New` exclude it, although the source still finishes on some such tables, for example `{"x": []}` with `{{ x.y }}`, which gives `y`. Only an empty path with nothing after it reaches the `expect`.
- Introspection.Collect: `add_ident` is modelled as a function returning the new set, not an update through `&mut HashSet`. The set is a local value of the walk, and nothing aliases it.
- IdentProperties.LoopItemResolves: the property is stated for containers without brackets whose head, plain or marked, is neither an alias nor the loop variable. Containers of two or more segments in general are covered by `IdentProperties.LoopItemExpands`, and one-segment containers by `IdentProperties.LoopOverAliasItem`.
- IdentProperties.LoopItemStep: stated under the same conditions as `IdentProperties.LoopItemResolves`: no brackets in the container, and its head, plain or marked, is neither an alias nor the loop variable. When the head is an alias the container is recorded as its expansion, which `IdentProperties.LoopItemExpands` states.
- The test at src/introspection.rs:135-162 reads `fixtures/table.j2`, which is not part of this model. `Scenarios.PageSummary` and `Scenarios.WalkPage` walk a smaller template of the same kind.
