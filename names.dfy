/**
 * Name resolution on expressions (`Expr`, `BaseId`, `Prefix`).
 *
 * Properties are evaluated in a lexical environment `env`; `eval_in_env(e, x)`
 * is evaluating `x` with `env := e`. The environments themselves are abstract:
 * name resolution only calls the three operations of `Lexical`.
 */
module Names {
  import opened Base
  import opened Syntax
  import opened Elements
  import Subprograms

  /** A lexical environment, by handle. */
  type EnvId = nat

  /** The environment operations the properties call. */
  datatype Lexical = Lexical(
    get: (EnvId, Symbol) -> seq<EnvElement>,             // `Env.get`: every entry of the first level that has one
    resolveUnique: (EnvId, Symbol) -> Result<EnvElement>, // `Env.resolve_unique`
    parentEnv: Entity -> EnvId)                          // `.parent_env` of a stored node

  // ---------------------------------------------------------------------------
  // has_callexpr

  /** The `take_while` predicate of `has_callexpr`: the node is a call, or is a
      field of a call, or is the suffix of a prefix. */
  predicate InCallQualifier(a: Ancestor)
  {
    || a.node.CallExpr?
    || (a.up.Some? && a.up.value.parent.CallExpr?)
    || (a.up.Some? && a.up.value.parent.Prefix? && a.up.value.slot == SuffixSlot)
  }

  predicate HasCallExpr(n: Node, ctx: seq<Frame>)
  {
    |TakeWhile(InCallQualifier, Parents(n, ctx))| != 0
  }

  /** Only the node itself decides: `has_callexpr` holds exactly when it is a call,
      or the name of a call, or the suffix of a prefix. */
  lemma HasCallExprHead(n: Node, ctx: seq<Frame>)
    ensures HasCallExpr(n, ctx) <==>
      || n.CallExpr?
      || (ctx != [] && ctx[0].parent.CallExpr?)
      || (ctx != [] && ctx[0].parent.Prefix? && ctx[0].slot == SuffixSlot)
  {
  }

  // ---------------------------------------------------------------------------
  // Candidate filtering

  /** The `BaseId.env_elements` filter outside call position: a subprogram
      specification survives only if it can be called without actuals, possibly
      after eliding the receiver of a dot-notation call. */
  predicate ValidOutsideCall(e: EnvElement)
  {
    match e.el
    case Spec(ss, _) =>
      || (e.md.dottableSubprogram && Subprograms.NbMinParams(ss) == 1)
      || Subprograms.NbMinParams(ss) == 0
    case Decl(_) => true
  }

  /** The candidates of an identifier token: the whole lookup in call position, and
      outside it a sub-sequence of the lookup holding only entries valid there. */
  function Lookup(lex: Lexical, env: EnvId, tok: Symbol, inCall: bool): (r: seq<EnvElement>)
    ensures |r| <= |lex.get(env, tok)|
    ensures !inCall ==> forall i :: 0 <= i < |r| ==> ValidOutsideCall(r[i])
  {
    if inCall then lex.get(env, tok) else Filter(ValidOutsideCall, lex.get(env, tok))
  }

  // ---------------------------------------------------------------------------
  // The four polymorphic properties of an expression

  /** `designated_env` */
  function DesignatedEnv(lex: Lexical, n: Node, env: EnvId): Result<EnvId>
  {
    match n
    case Tok(_, t) =>
      if !IsBaseId(n) then Failure(AbstractProperty)
      else (match lex.resolveUnique(env, t)
        case Success(e) => Success(lex.parentEnv(e.el))
        case Failure(err) => Failure(err))
    case Prefix(p, s) =>
      (match DesignatedEnv(lex, p, env)
       case Success(d) => DesignatedEnv(lex, s, d)
       case Failure(err) => Failure(err))
    case _ => Failure(AbstractProperty)
  }

  /** `scope` */
  function Scope(lex: Lexical, n: Node, env: EnvId): Result<EnvId>
  {
    match n
    case Tok(_, _) => if IsBaseId(n) then Success(env) else Failure(AbstractProperty)
    case Prefix(p, _) => DesignatedEnv(lex, p, env)
    case _ => Failure(AbstractProperty)
  }

  /** `name`: every `SingleTokNode` names its own token, a prefix names its suffix's. */
  function NameOf(n: Node): Result<Symbol>
  {
    match n
    case Tok(_, t) => Success(t)
    case Prefix(_, s) => NameOf(s)
    case _ => Failure(AbstractProperty)
  }

  /** `env_elements` of the node `n` placed in context `ctx`. */
  function EnvElements(lex: Lexical, n: Node, ctx: seq<Frame>, env: EnvId): Result<seq<EnvElement>>
  {
    match n
    case Tok(_, t) =>
      if IsBaseId(n) then Success(Lookup(lex, env, t, HasCallExpr(n, ctx))) else Failure(AbstractProperty)
    case Prefix(p, s) =>
      (match DesignatedEnv(lex, p, env)
       case Success(d) => EnvElements(lex, s, [Frame(n, SuffixSlot)] + ctx, d)
       case Failure(err) => Failure(err))
    case _ => Failure(AbstractProperty)
  }

  function ElementEntities(elements: seq<EnvElement>): (r: seq<Entity>)
    ensures |r| == |elements| && forall i :: 0 <= i < |r| ==> r[i] == elements[i].el
  {
    seq(|elements|, i requires 0 <= i < |elements| => elements[i].el)
  }

  /** `entities`: `env_elements` without their metadata. */
  function Entities(lex: Lexical, n: Node, ctx: seq<Frame>, env: EnvId): (r: Result<seq<Entity>>)
    ensures r.Success? <==> EnvElements(lex, n, ctx, env).Success?
    ensures r.Success? ==> var els := EnvElements(lex, n, ctx, env).value;
      |r.value| == |els| && forall i :: 0 <= i < |els| ==> r.value[i] == els[i].el
    ensures r.Failure? ==> r.error == EnvElements(lex, n, ctx, env).error
  {
    match EnvElements(lex, n, ctx, env)
    case Success(els) => Success(ElementEntities(els))
    case Failure(err) => Failure(err)
  }

  /** `get_type`: for an identifier, the first candidate that declares a type; for a
      prefix, the suffix's type evaluated in the first package its prefix denotes. */
  function GetType(lex: Lexical, n: Node, ctx: seq<Frame>, env: EnvId): Result<Option<Entity>>
  {
    match n
    case Tok(_, _) =>
      if !IsBaseId(n) then Failure(AbstractProperty)
      else (match Entities(lex, n, ctx, env)
        case Success(ents) => Success(At(Filter(IsTypeDecl, ents), 0))
        case Failure(err) => Failure(err))
    case Prefix(p, s) =>
      (match Entities(lex, p, [Frame(n, PrefixSlot)] + ctx, env)
       case Failure(err) => Failure(err)
       case Success(ents) =>
         match At(Filter(IsPackage, ents), 0)
         case None => Failure(NullNode)
         case Some(pkg) => GetType(lex, s, [Frame(n, SuffixSlot)] + ctx, lex.parentEnv(pkg)))
    case _ => Failure(AbstractProperty)
  }

  // ---------------------------------------------------------------------------
  // BaseId.env_elements

  /** In call position an identifier's candidates are the whole lookup; matching
      against the actuals is left to the enclosing call. */
  lemma IdElementsInCall(lex: Lexical, n: Node, ctx: seq<Frame>, env: EnvId)
    requires IsBaseId(n) && HasCallExpr(n, ctx)
    ensures EnvElements(lex, n, ctx, env) == Success(lex.get(env, n.tok))
  {
  }

  /** Outside call position the candidates are the entries of the lookup, in order,
      minus the subprograms that need actuals: everything that is not a subprogram
      is kept, a subprogram only if it needs no actual, or exactly one when it is
      reached through dot notation. */
  lemma IdElementsOutsideCall(lex: Lexical, n: Node, ctx: seq<Frame>, env: EnvId)
    requires IsBaseId(n) && !HasCallExpr(n, ctx)
    ensures EnvElements(lex, n, ctx, env).Success?
    ensures var r, all := EnvElements(lex, n, ctx, env).value, lex.get(env, n.tok);
      && |r| <= |all|
      && (forall x :: x in r <==>
            && x in all
            && (x.el.Spec? ==>
                  || Subprograms.NbMinParams(x.el.spec) == 0
                  || (x.md.dottableSubprogram && Subprograms.NbMinParams(x.el.spec) == 1)))
      && ((forall i :: 0 <= i < |all| ==> all[i].el.Decl?) ==> r == all)
  {
    var all := lex.get(env, n.tok);
    forall x ensures x in Filter(ValidOutsideCall, all) <==> x in all && ValidOutsideCall(x) {
      FilterMember(ValidOutsideCall, all, x);
    }
    if forall i :: 0 <= i < |all| ==> all[i].el.Decl? {
      FilterKeepsAll(ValidOutsideCall, all);
    }
  }

  /** Splitting the lookup splits the filtered candidates the same way: filtering
      never reorders entries. */
  lemma IdElementsKeepOrder(lex: Lexical, n: Node, ctx: seq<Frame>, env: EnvId, a: seq<EnvElement>, b: seq<EnvElement>)
    requires IsBaseId(n) && !HasCallExpr(n, ctx) && lex.get(env, n.tok) == a + b
    ensures EnvElements(lex, n, ctx, env) == Success(Filter(ValidOutsideCall, a) + Filter(ValidOutsideCall, b))
  {
    FilterConcat(ValidOutsideCall, a, b);
  }

  // ---------------------------------------------------------------------------
  // BaseId.get_type

  /** An identifier's type is its first candidate that is a type declaration,
      skipping nearer candidates that are not, and nothing when none is. */
  lemma IdTypeIsFirstTypeDecl(lex: Lexical, n: Node, ctx: seq<Frame>, env: EnvId)
    requires IsBaseId(n)
    ensures Entities(lex, n, ctx, env).Success? && GetType(lex, n, ctx, env).Success?
    ensures var ents, r := Entities(lex, n, ctx, env).value, GetType(lex, n, ctx, env).value;
      && (r.None? <==> forall j :: 0 <= j < |ents| ==> !IsTypeDecl(ents[j]))
      && (forall k :: 0 <= k < |ents| && IsTypeDecl(ents[k]) && (forall j :: 0 <= j < k ==> !IsTypeDecl(ents[j]))
            ==> r == Some(ents[k]))
  {
    var ents := Entities(lex, n, ctx, env).value;
    FilterEmpty(IsTypeDecl, ents);
    forall k | 0 <= k < |ents| && IsTypeDecl(ents[k]) && (forall j :: 0 <= j < k ==> !IsTypeDecl(ents[j]))
      ensures GetType(lex, n, ctx, env).value == Some(ents[k])
    {
      FilterHead(IsTypeDecl, ents, k);
    }
  }

  // ---------------------------------------------------------------------------
  // Prefix: dotted names

  /** The reference walk down a dotted name: resolve each segment uniquely and move
      into the environment of what it denotes. */
  function WalkEnv(lex: Lexical, env: EnvId, segs: seq<Symbol>): Result<EnvId>
    decreases |segs|
  {
    if segs == [] then Success(env)
    else match lex.resolveUnique(env, segs[0])
      case Success(e) => WalkEnv(lex, lex.parentEnv(e.el), segs[1..])
      case Failure(err) => Failure(err)
  }

  lemma {:induction false} WalkEnvConcat(lex: Lexical, env: EnvId, a: seq<Symbol>, b: seq<Symbol>)
    ensures WalkEnv(lex, env, a + b) ==
      match WalkEnv(lex, env, a)
      case Success(d) => WalkEnv(lex, d, b)
      case Failure(err) => Failure(err)
    decreases |a|
  {
    if a == [] {
      assert a + b == b;
    } else {
      assert (a + b)[0] == a[0] && (a + b)[1..] == a[1..] + b;
      match lex.resolveUnique(env, a[0])
      case Success(e) => WalkEnvConcat(lex, lex.parentEnv(e.el), a[1..], b);
      case Failure(_) =>
    }
  }

  /** `name` of a dotted name is its last segment (`C` for `A.B.C`). */
  lemma {:induction false} NameIsLastSegment(n: Node)
    requires IsDottedName(n)
    ensures NameOf(n) == Success(Last(Segments(n)))
  {
    match n
    case Tok(_, _) =>
    case Prefix(p, s) => NameIsLastSegment(s);
  }

  /** `designated_env` of a dotted name is the environment reached by resolving its
      segments one after the other, however its prefixes are nested. */
  lemma {:induction false} DesignatedEnvIsWalk(lex: Lexical, n: Node, env: EnvId)
    requires IsDottedName(n)
    ensures DesignatedEnv(lex, n, env) == WalkEnv(lex, env, Segments(n))
  {
    match n
    case Tok(_, t) =>
      assert Segments(n)[1..] == [];
    case Prefix(p, s) =>
      DesignatedEnvIsWalk(lex, p, env);
      WalkEnvConcat(lex, env, Segments(p), Segments(s));
      match DesignatedEnv(lex, p, env)
      case Success(d) => DesignatedEnvIsWalk(lex, s, d);
      case Failure(_) =>
  }

  /** The identifier at the end of a dotted name, and its context. */
  function LastSegmentNode(n: Node, ctx: seq<Frame>): (r: (Node, seq<Frame>))
    requires IsDottedName(n)
    ensures IsBaseId(r.0) && r.0.tok == Last(Segments(n))
  {
    match n
    case Tok(_, _) => (n, ctx)
    case Prefix(_, s) => LastSegmentNode(s, [Frame(n, SuffixSlot)] + ctx)
  }

  /** `env_elements` of a dotted name `A.B.C` looks `C` up, with or without the call
      filter as `C`'s own position decides, in the environment reached by
      resolving `A` then `B`; it fails when that walk fails. */
  lemma {:induction false} DottedNameElements(lex: Lexical, n: Node, ctx: seq<Frame>, env: EnvId)
    requires IsDottedName(n)
    ensures var last := LastSegmentNode(n, ctx);
      EnvElements(lex, n, ctx, env) ==
        match WalkEnv(lex, env, AllButLast(Segments(n)))
        case Success(d) => Success(Lookup(lex, d, Last(Segments(n)), HasCallExpr(last.0, last.1)))
        case Failure(err) => Failure(err)
  {
    match n
    case Tok(_, _) =>
    case Prefix(p, s) =>
      var ps, ss := Segments(p), Segments(s);
      assert AllButLast(ps + ss) == ps + AllButLast(ss);
      assert Last(ps + ss) == Last(ss);
      WalkEnvConcat(lex, env, ps, AllButLast(ss));
      DesignatedEnvIsWalk(lex, p, env);
      match DesignatedEnv(lex, p, env)
      case Success(d) => DottedNameElements(lex, s, [Frame(n, SuffixSlot)] + ctx, d);
      case Failure(_) =>
  }

  /** For `P.C` with `C` an identifier, `scope` is the environment `P` designates, and
      it is the environment in which `C`'s candidates are looked up, whatever the
      environment of the whole expression. */
  lemma QualifiedScope(lex: Lexical, n: Node, ctx: seq<Frame>, env: EnvId)
    requires n.Prefix? && IsDottedName(n.prefix) && IsBaseId(n.suffix)
    ensures Scope(lex, n, env) == WalkEnv(lex, env, Segments(n.prefix))
    ensures EnvElements(lex, n, ctx, env) ==
      match Scope(lex, n, env)
      case Success(d) => Success(Lookup(lex, d, n.suffix.tok, HasCallExpr(n.suffix, [Frame(n, SuffixSlot)] + ctx)))
      case Failure(err) => Failure(err)
  {
    DesignatedEnvIsWalk(lex, n.prefix, env);
  }

  /** `scope` of any dotted name `P.S` is the environment its prefix `P` designates:
      for a right-nested `A.(B.C)` that is `A`'s environment, while `C` itself is
      looked up in the environment reached through `A` then `B`. */
  lemma ScopeOfDottedName(lex: Lexical, n: Node, env: EnvId)
    requires IsDottedName(n)
    ensures Scope(lex, n, env) == if n.Tok? then Success(env) else WalkEnv(lex, env, Segments(n.prefix))
    ensures n.Prefix? ==> AllButLast(Segments(n)) == Segments(n.prefix) + AllButLast(Segments(n.suffix))
  {
    if n.Prefix? {
      DesignatedEnvIsWalk(lex, n.prefix, env);
      assert AllButLast(Segments(n.prefix) + Segments(n.suffix)) == Segments(n.prefix) + AllButLast(Segments(n.suffix));
    }
  }

  /** `Prefix.get_type` looks only at the package candidates of its prefix: it fails
      on a null node when there is none, and otherwise is the suffix's type
      evaluated in the environment of the first one. */
  lemma PrefixTypeFromFirstPackage(lex: Lexical, n: Node, ctx: seq<Frame>, env: EnvId)
    requires n.Prefix? && Entities(lex, n.prefix, [Frame(n, PrefixSlot)] + ctx, env).Success?
    ensures var ents := Entities(lex, n.prefix, [Frame(n, PrefixSlot)] + ctx, env).value;
      && ((forall j :: 0 <= j < |ents| ==> !IsPackage(ents[j])) ==> GetType(lex, n, ctx, env) == Failure(NullNode))
      && (forall k :: 0 <= k < |ents| && IsPackage(ents[k]) && (forall j :: 0 <= j < k ==> !IsPackage(ents[j]))
            ==> GetType(lex, n, ctx, env) ==
                  GetType(lex, n.suffix, [Frame(n, SuffixSlot)] + ctx, lex.parentEnv(ents[k])))
  {
    var ents := Entities(lex, n.prefix, [Frame(n, PrefixSlot)] + ctx, env).value;
    FilterEmpty(IsPackage, ents);
    forall k | 0 <= k < |ents| && IsPackage(ents[k]) && (forall j :: 0 <= j < k ==> !IsPackage(ents[j]))
      ensures GetType(lex, n, ctx, env) == GetType(lex, n.suffix, [Frame(n, SuffixSlot)] + ctx, lex.parentEnv(ents[k]))
    {
      FilterHead(IsPackage, ents, k);
    }
  }

  /** Only the dotted name itself and the environments it resolves through matter:
      two evaluation environments in which the qualifier designates the same
      environment give `C` the same candidates. */
  lemma QualifierRedirectsLookup(lex: Lexical, n: Node, ctx: seq<Frame>, env1: EnvId, env2: EnvId)
    requires n.Prefix? && DesignatedEnv(lex, n.prefix, env1) == DesignatedEnv(lex, n.prefix, env2)
    ensures EnvElements(lex, n, ctx, env1) == EnvElements(lex, n, ctx, env2)
  {
  }

  // ---------------------------------------------------------------------------
  // The has_callexpr examples of its documentation

  const NumArgs := OtherNode([Tok(NumLiteral, "12"), Tok(NumLiteral, "15")])

  function Id(s: Symbol): Node
  {
    Tok(Identifier, s)
  }

  /** `C (12, 15)`: `C` is the called name. */
  lemma SimpleCallExample()
    ensures var call := CallExpr(Id("C"), NumArgs);
      var ctx := [Frame(call, 0)];
      WellFormedContext(Id("C"), ctx) && HasCallExpr(Id("C"), ctx)
  {
  }

  /** `A.B.C (12, 15)` parsed as `A.(B.C)`: `C` is in call position, `B` and `A` are
      not, as the documentation states. */
  lemma RightNestedCallExample()
    ensures var bc := Prefix(Id("B"), Id("C"));
      var abc := Prefix(Id("A"), bc);
      var call := CallExpr(abc, NumArgs);
      var cCtx := [Frame(bc, SuffixSlot), Frame(abc, SuffixSlot), Frame(call, 0)];
      var bCtx := [Frame(bc, PrefixSlot), Frame(abc, SuffixSlot), Frame(call, 0)];
      var aCtx := [Frame(abc, PrefixSlot), Frame(call, 0)];
      && WellFormedContext(Id("C"), cCtx) && HasCallExpr(Id("C"), cCtx)
      && WellFormedContext(Id("B"), bCtx) && !HasCallExpr(Id("B"), bCtx)
      && WellFormedContext(Id("A"), aCtx) && !HasCallExpr(Id("A"), aCtx)
  {
    var bc := Prefix(Id("B"), Id("C"));
    var abc := Prefix(Id("A"), bc);
    var call := CallExpr(abc, NumArgs);
    assert WellFormedContext(bc, [Frame(abc, SuffixSlot), Frame(call, 0)]) by {
      assert [Frame(abc, SuffixSlot), Frame(call, 0)][1..] == [Frame(call, 0)];
    }
    assert [Frame(bc, SuffixSlot), Frame(abc, SuffixSlot), Frame(call, 0)][1..] == [Frame(abc, SuffixSlot), Frame(call, 0)];
    assert [Frame(bc, PrefixSlot), Frame(abc, SuffixSlot), Frame(call, 0)][1..] == [Frame(abc, SuffixSlot), Frame(call, 0)];
    HasCallExprHead(Id("C"), [Frame(bc, SuffixSlot), Frame(abc, SuffixSlot), Frame(call, 0)]);
    HasCallExprHead(Id("B"), [Frame(bc, PrefixSlot), Frame(abc, SuffixSlot), Frame(call, 0)]);
    HasCallExprHead(Id("A"), [Frame(abc, PrefixSlot), Frame(call, 0)]);
  }

  /** `X := A.B;`: no call anywhere, yet `B`, being the suffix of a prefix, has
      `has_callexpr`, so its candidates are not filtered. */
  lemma SuffixOutsideCallExample()
    ensures var ab := Prefix(Id("A"), Id("B"));
      var assign := OtherNode([Id("X"), ab]);
      var bCtx := [Frame(ab, SuffixSlot), Frame(assign, 1)];
      && WellFormedContext(Id("B"), bCtx)
      && (forall k :: 0 <= k < |bCtx| ==> !bCtx[k].parent.CallExpr?)
      && HasCallExpr(Id("B"), bCtx)
  {
  }

  /** `A.B.C (12, 15)` parsed as `(A.B).C`: `C` is in call position, but so is `B`,
      being the suffix of the prefix `A.B`; only `A` is not. */
  lemma LeftNestedCallExample()
    ensures var ab := Prefix(Id("A"), Id("B"));
      var abc := Prefix(ab, Id("C"));
      var call := CallExpr(abc, NumArgs);
      var cCtx := [Frame(abc, SuffixSlot), Frame(call, 0)];
      var bCtx := [Frame(ab, SuffixSlot), Frame(abc, PrefixSlot), Frame(call, 0)];
      var aCtx := [Frame(ab, PrefixSlot), Frame(abc, PrefixSlot), Frame(call, 0)];
      && WellFormedContext(Id("C"), cCtx) && HasCallExpr(Id("C"), cCtx)
      && WellFormedContext(Id("B"), bCtx) && HasCallExpr(Id("B"), bCtx)
      && WellFormedContext(Id("A"), aCtx) && !HasCallExpr(Id("A"), aCtx)
  {
  }
}
