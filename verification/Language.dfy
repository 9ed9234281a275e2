/** Parsed queries, and the disjunctive form they are normalised to. */
module Language {
  import opened Bytes
  import opened Entities

  datatype Value = Text(s: Str) | Number(n: uint64)
  datatype Values = Texts(ss: seq<Str>) | Numbers(ns: seq<uint64>)

  datatype LeafForm =
    | Assign(key: Str, isNot: bool, value: Value)
    | Inclusion(key: Str, isNot: bool, values: Values)
    | LessThan(key: Str, value: Value)
    | LessOrEqualThan(key: Str, value: Value)
    | GreaterThan(key: Str, value: Value)
    | GreaterOrEqualThan(key: Str, value: Value)
    | GlobExpr(key: Str, isNot: bool, pattern: Str)

  /** Keys whose values are hexadecimal text, compared in lower case. */
  predicate HexKey(key: Str) { key == ENTITY_KEY_KEY || key == OWNER_KEY || key == CREATOR_KEY }

  /** Hexadecimal keys are compared with text. */
  predicate Typed(l: LeafForm) {
    HexKey(l.key) && !l.Inclusion? && !l.GlobExpr? ==> l.value.Text?
  }

  type Leaf = l: LeafForm | Typed(l) witness GlobExpr([], false, [])

  datatype Expression = Expression(disjunction: OrExpression)
  datatype OrExpression = OrExpression(left: AndExpression, right: seq<AndExpression>)
  datatype AndExpression = AndExpression(left: EqualExpr, right: seq<EqualExpr>)
  datatype EqualExpr = Paren(isNot: bool, nested: Expression) | Term(leaf: Leaf)

  /** A query is an expression, or `*` or `$all`. */
  datatype TopLevel = Everything | Query(expr: Expression)

  // ---------- The normal form ----------

  type Conjunction = seq<Leaf>
  type Dnf = seq<Conjunction>
  datatype Ast = AllAst | OrAst(terms: Dnf)

  // ---------- Negation of a leaf ----------

  /** Equality, inclusion and glob flip their flag; a range takes the opposite operator. */
  function InvertLeaf(l: Leaf): (r: Leaf)
    ensures r.key == l.key
  {
    match l
    case Assign(k, n, v) => Assign(k, !n, v)
    case Inclusion(k, n, vs) => Inclusion(k, !n, vs)
    case GlobExpr(k, n, p) => GlobExpr(k, !n, p)
    case LessThan(k, v) => GreaterOrEqualThan(k, v)
    case LessOrEqualThan(k, v) => GreaterThan(k, v)
    case GreaterThan(k, v) => LessOrEqualThan(k, v)
    case GreaterOrEqualThan(k, v) => LessThan(k, v)
  }

  lemma InvertTwice(l: Leaf)
    ensures InvertLeaf(InvertLeaf(l)) == l
  {
  }
}
