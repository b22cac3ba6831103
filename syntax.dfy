/**
 * The expression nodes that name resolution walks, and the context of a node
 * inside its tree.
 *
 * A node's identity is its position in the tree: the context lists, innermost
 * first, each ancestor together with the field of that ancestor that leads
 * back down towards the node.
 */
module Syntax {
  import opened Base

  /** The concrete kinds of `SingleTokNode`. */
  datatype TokKind =
    | Identifier
    | EnumIdentifier
    | StringLiteral
    | CharLiteral
    | NumLiteral
    | NullLiteral
    | Attribute

  datatype Node =
    | Tok(kind: TokKind, tok: Symbol)        // a SingleTokNode
    | Prefix(prefix: Node, suffix: Node)     // `prefix.suffix`
    | CallExpr(name: Node, suffix: Node)     // `name (suffix)`
    | OtherNode(children: seq<Node>)         // any other node, with its fields in order

  /** Field positions of the two-field nodes. */
  const PrefixSlot: nat := 0
  const SuffixSlot: nat := 1

  function Children(n: Node): seq<Node>
  {
    match n
    case Tok(_, _) => []
    case Prefix(p, s) => [p, s]
    case CallExpr(c, s) => [c, s]
    case OtherNode(cs) => cs
  }

  /** `BaseId` and its subclasses `Identifier`, `EnumIdentifier`, `StringLiteral`. */
  predicate IsBaseId(n: Node)
  {
    n.Tok? && n.kind in {Identifier, EnumIdentifier, StringLiteral}
  }

  /** `Identifier` and its subclass `EnumIdentifier`. */
  predicate IsIdentifier(n: Node)
  {
    n.Tok? && n.kind in {Identifier, EnumIdentifier}
  }

  /** One step up from a node: its parent and the field of the parent that holds it. */
  datatype Frame = Frame(parent: Node, slot: nat)

  /** `ctx` really is a chain of ancestors of `n`, innermost first. */
  ghost predicate WellFormedContext(n: Node, ctx: seq<Frame>)
    decreases |ctx|
  {
    ctx != [] ==>
      && ctx[0].slot < |Children(ctx[0].parent)|
      && Children(ctx[0].parent)[ctx[0].slot] == n
      && WellFormedContext(ctx[0].parent, ctx[1..])
  }

  /** An element of `Self.parents`: a node together with the step to its parent, if any. */
  datatype Ancestor = Ancestor(node: Node, up: Option<Frame>)

  /** `Self.parents`: the node itself, then each of its ancestors up to the root. */
  function Parents(n: Node, ctx: seq<Frame>): (r: seq<Ancestor>)
    ensures |r| == |ctx| + 1
    ensures r[0].node == n
    ensures forall k :: 0 <= k < |ctx| ==> r[k].up == Some(ctx[k]) && r[k + 1].node == ctx[k].parent
    ensures r[|ctx|].up == None
    decreases |ctx|
  {
    if ctx == [] then [Ancestor(n, None)]
    else [Ancestor(n, Some(ctx[0]))] + Parents(ctx[0].parent, ctx[1..])
  }

  /** The segments of a dotted name such as `A.B.C`, whatever the nesting of its prefixes. */
  predicate IsDottedName(n: Node)
  {
    match n
    case Tok(_, _) => IsBaseId(n)
    case Prefix(p, s) => IsDottedName(p) && IsDottedName(s)
    case _ => false
  }

  function Segments(n: Node): (r: seq<Symbol>)
    requires IsDottedName(n)
    ensures |r| > 0
  {
    match n
    case Tok(_, t) => [t]
    case Prefix(p, s) => Segments(p) + Segments(s)
  }

  function Last<T>(s: seq<T>): T
    requires |s| > 0
  {
    s[|s| - 1]
  }

  function AllButLast<T>(s: seq<T>): seq<T>
    requires |s| > 0
  {
    s[..|s| - 1]
  }
}
