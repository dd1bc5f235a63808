/** The alias table and the two functions that use it: `expand_names`
    (src/introspection.rs:100-109) and `add_mapping` (lines 111-126). The table
    is one `HashMap<String, Vec<String>>` threaded by `&mut` through the whole
    walk, modelled as the class `AliasTable` whose field the walk updates. */
module Aliases {
  import opened Wrappers
  import opened Paths
  import opened Syntax

  /** Alias name -> the path segments it stands for. */
  type Table = map<string, seq<string>>

  /** Sufficient for the `expect` of `expand_names` (line 101) never to fire:
      no alias stands for the empty path. */
  predicate NonEmptyValues(t: Table) {
    forall k :: k in t ==> |t[k]| > 0
  }

  /** Every stored value is a path as `split_ident` produces it (possibly with
      the loop marker on its last segment). */
  predicate ValidTable(t: Table) {
    forall k :: k in t ==> IsPath(t[k])
  }

  /** `expand_names` with a depth bound. While the first segment is an alias it
      is replaced by the alias's path and the rest is kept; a path whose first
      segment is not an alias is the result. The original recursion has no
      bound and does not terminate on a cyclic table; here `None` means that
      more than `fuel` substitutions would be needed. */
  function Expand(names: seq<string>, t: Table, fuel: nat): (r: Option<seq<string>>)
    requires |names| > 0 && NonEmptyValues(t)
    ensures names[0] !in t ==> r == Some(names)
    ensures r.Some? ==> |r.value| > 0 && r.value[0] !in t
    ensures r.Some? ==> |names| <= |r.value| && r.value[|r.value| - (|names| - 1)..] == names[1..]
    ensures r.Some? && IsPath(names) && ValidTable(t) ==> IsPath(r.value)
    decreases fuel
  {
    if names[0] !in t then Some(names)
    else if fuel == 0 then None
    else Expand(t[names[0]] + names[1..], t, fuel - 1)
  }

  /** The loop marker: `"()"` appended to the last segment (lines 119-123). */
  function MarkLoop(names: seq<string>): (r: seq<string>)
    ensures |r| == |names|
    ensures forall k :: 0 <= k < |names| - 1 ==> r[k] == names[k]
    ensures names != [] ==> r[|r| - 1] == names[|names| - 1] + "()"
    ensures IsPath(names) ==> IsPath(r)
  {
    if names == [] then names
    else
      var last := names[|names| - 1];
      assert IsPath(names) ==> IsSegment(last + "()") by {
        if IsPath(names) {
          assert IsSegment(last);
          assert (last + "()")[|last + "()"| - 1] == ')';
          assert forall i :: 0 <= i < |last + "()"| ==> (last + "()")[i] == (if i < |last| then last[i] else "()"[i - |last|]);
        }
      }
      names[..|names| - 1] + [last + "()"]
  }

  /** `add_mapping`: only an identifier expression is bound; the alias is
      overwritten, not stacked. */
  function Bind(t: Table, value: string, expr: Expr, isLoop: bool): (r: Table)
    ensures !expr.Ident? ==> r == t
    ensures expr.Ident? ==> r.Keys == t.Keys + {value}
    ensures expr.Ident? ==> r[value] == if isLoop then MarkLoop(SplitIdent(expr.path)) else SplitIdent(expr.path)
    ensures forall k :: k in t && k != value ==> k in r && r[k] == t[k]
    ensures NonEmptyValues(t) ==> NonEmptyValues(r)
    ensures ValidTable(t) ==> ValidTable(r)
  {
    match expr
    case Ident(v) =>
      var names := SplitIdent(v);
      t[value := if isLoop then MarkLoop(names) else names]
    case NonIdent => t
  }

  /** The `&mut HashMap` shared by the whole walk. */
  class AliasTable {
    var mapping: Table

    ghost predicate Valid()
      reads this
    {
      NonEmptyValues(mapping)
    }

    /** `HashMap::new()`, as the caller creates it (line 138). */
    constructor ()
      ensures Valid() && mapping == map[]
    {
      mapping := map[];
    }

    /** `add_mapping(mapping, value, expr, is_loop)`. */
    method AddMapping(value: string, expr: Expr, isLoop: bool)
      requires Valid()
      modifies this
      ensures Valid()
      ensures mapping == Bind(old(mapping), value, expr, isLoop)
    {
      if expr.Ident? {
        var names := SplitIdent(expr.path);
        if isLoop && |names| > 0 {
          names := names[..|names| - 1] + [names[|names| - 1] + "()"];
        }
        mapping := mapping[value := names];
      }
    }
  }

  // ---------------------------------------------------------------------------
  // Properties of expansion

  /** When the first segment is an alias, one step replaces it by the alias's
      path and keeps the rest. */
  lemma ExpandStep(names: seq<string>, t: Table, fuel: nat)
    requires |names| > 0 && NonEmptyValues(t) && names[0] in t
    ensures Expand(names, t, fuel + 1) == Expand(t[names[0]] + names[1..], t, fuel)
  {
  }

  /** More fuel never changes a result that was reached: the bound only decides
      whether expansion finishes, never what it yields. */
  lemma {:induction false} ExpandMoreFuel(names: seq<string>, t: Table, fuel: nat, more: nat)
    requires |names| > 0 && NonEmptyValues(t)
    requires Expand(names, t, fuel).Some? && fuel <= more
    ensures Expand(names, t, more) == Expand(names, t, fuel)
    decreases fuel
  {
    if names[0] in t {
      ExpandMoreFuel(t[names[0]] + names[1..], t, fuel - 1, more - 1);
    }
  }

  /** Two terminating expansions of one path agree, whatever their fuel. */
  lemma ExpandDeterministic(names: seq<string>, t: Table, f1: nat, f2: nat)
    requires |names| > 0 && NonEmptyValues(t)
    requires Expand(names, t, f1).Some? && Expand(names, t, f2).Some?
    ensures Expand(names, t, f1) == Expand(names, t, f2)
  {
    if f1 <= f2 {
      ExpandMoreFuel(names, t, f1, f2);
    } else {
      ExpandMoreFuel(names, t, f2, f1);
    }
  }

  /** An expanded path expands to itself, with any fuel (idempotence). */
  lemma ExpandIdempotent(names: seq<string>, t: Table, fuel: nat, again: nat)
    requires |names| > 0 && NonEmptyValues(t)
    requires Expand(names, t, fuel).Some?
    ensures Expand(Expand(names, t, fuel).value, t, again) == Expand(names, t, fuel)
  {
  }

  /** Expansion looks only at the head, so whatever follows a path is carried
      through unchanged: `p + q` expands to the expansion of `p`, then `q`. */
  lemma {:induction false} ExpandAppend(p: seq<string>, q: seq<string>, t: Table, fuel: nat)
    requires |p| > 0 && NonEmptyValues(t)
    ensures Expand(p + q, t, fuel)
         == if Expand(p, t, fuel).Some? then Some(Expand(p, t, fuel).value + q) else None
    decreases fuel
  {
    assert (p + q)[0] == p[0];
    if p[0] in t && fuel > 0 {
      var next := t[p[0]] + p[1..];
      assert t[p[0]] + (p + q)[1..] == next + q;
      ExpandAppend(next, q, t, fuel - 1);
    }
  }

  /** The loop marker lands on the last segment, whatever comes before. */
  lemma MarkLoopAppend(e: seq<string>, r: seq<string>)
    requires |r| > 0
    ensures MarkLoop(e + r) == e + MarkLoop(r)
  {
    assert (e + r)[..|e + r| - 1] == e + r[..|r| - 1];
  }

  /** A marked path of two or more segments, with a field after it, expands
      to the marked expansion of the path, then the field: the marker stays on
      the last segment, which expansion never touches. */
  lemma ExpandMarked(names: seq<string>, field: string, t: Table, fuel: nat)
    requires |names| >= 2 && NonEmptyValues(t)
    requires Expand(names, t, fuel).Some?
    ensures Expand(MarkLoop(names) + [field], t, fuel) == Some(MarkLoop(Expand(names, t, fuel).value) + [field])
  {
    HeadExpands(names, t, fuel);
    var e := Expand([names[0]], t, fuel).value;
    MarkedTail(names, field, e, t, fuel);
    MarkLoopAppend(e, names[1..]);
    assert e + MarkLoop(names[1..]) + [field] == (e + MarkLoop(names[1..])) + [field];
  }

  /** A path expands as its head does, with the rest carried along. */
  lemma HeadExpands(names: seq<string>, t: Table, fuel: nat)
    requires |names| > 0 && NonEmptyValues(t)
    requires Expand(names, t, fuel).Some?
    ensures Expand([names[0]], t, fuel).Some?
    ensures Expand(names, t, fuel).value == Expand([names[0]], t, fuel).value + names[1..]
  {
    assert names == [names[0]] + names[1..];
    ExpandAppend([names[0]], names[1..], t, fuel);
  }

  /** The marked path with a field, expanded through its head. */
  lemma MarkedTail(names: seq<string>, field: string, e: seq<string>, t: Table, fuel: nat)
    requires |names| >= 2 && NonEmptyValues(t)
    requires Expand([names[0]], t, fuel) == Some(e)
    ensures Expand(MarkLoop(names) + [field], t, fuel) == Some(e + MarkLoop(names[1..]) + [field])
  {
    var tail := MarkLoop(names[1..]) + [field];
    assert MarkLoop(names) + [field] == [names[0]] + tail by {
      assert names == [names[0]] + names[1..];
      MarkLoopAppend([names[0]], names[1..]);
    }
    ExpandAppend([names[0]], tail, t, fuel);
    assert e + tail == e + MarkLoop(names[1..]) + [field];
  }

  /** An alias whose own path starts with itself (what `for x in x.y` stores)
      makes expansion run forever: no fuel is enough. */
  lemma {:induction false} SelfAliasDiverges(names: seq<string>, t: Table, fuel: nat)
    requires |names| > 0 && NonEmptyValues(t)
    requires names[0] in t && t[names[0]][0] == names[0]
    ensures Expand(names, t, fuel) == None
    decreases fuel
  {
    if fuel > 0 {
      var next := t[names[0]] + names[1..];
      assert next[0] == names[0];
      SelfAliasDiverges(next, t, fuel - 1);
    }
  }

  /** `rank` orders the aliases: each alias's path starts with a plain name or
      with an alias of smaller rank. Such a table has no cycle. */
  predicate Ranked(t: Table, rank: map<string, nat>) {
    forall k :: k in t ==> k in rank && |t[k]| > 0 && (t[k][0] in t ==> t[k][0] in rank && rank[t[k][0]] < rank[k])
  }

  /** On an acyclic (ranked) table expansion terminates, given more fuel than
      the first segment's rank. */
  lemma {:induction false} RankedTerminates(names: seq<string>, t: Table, rank: map<string, nat>, fuel: nat)
    requires |names| > 0 && Ranked(t, rank)
    requires names[0] in t ==> rank[names[0]] < fuel
    ensures NonEmptyValues(t) && Expand(names, t, fuel).Some?
    decreases fuel
  {
    if names[0] in t {
      var next := t[names[0]] + names[1..];
      assert next[0] == t[names[0]][0];
      RankedTerminates(next, t, rank, fuel - 1);
    }
  }
}
