/** The part of Tera's parsed template tree that the introspection pass looks at
    (the variants matched at src/introspection.rs:28-58). Every other node
    variant is `Other`; every expression that is not a bare identifier is
    `NonIdent`. */
module Syntax {

  /** An expression: only `ExprVal::Ident` is inspected (lines 85 and 117). */
  datatype Expr = Ident(path: string) | NonIdent

  /** One `if`/`elif` arm: its condition and its body (line 47). */
  datatype Branch = Branch(cond: Expr, body: seq<Node>)

  /** The optional `else` body of an `if` (line 51). */
  datatype Otherwise = NoElse | Else(body: seq<Node>)

  datatype Node =
    | Extends(name: string)                                  // line 28
    | Include(template: seq<string>)                         // line 31
    | ImportMacro(name: string)                              // line 34
    | Block(body: seq<Node>)                                 // line 37
    | Forloop(value: string, container: Expr, body: seq<Node>) // line 40
    | If(conditions: seq<Branch>, otherwise: Otherwise)      // line 46
    | VariableBlock(expr: Expr)                              // line 55
    | Other                                                  // line 58
}
