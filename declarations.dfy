/**
 * The environment specifications of the declaration nodes: which nodes open a
 * lexical environment, and which names they add, to what, starting from which
 * environment.
 */
module Declarations {
  import opened Base
  import opened Syntax
  import opened Elements
  import Names

  /** Where the node's environment actions start: the current environment, or
      (for a child unit) the `scope` of its name. */
  datatype InitialEnv = CurrentEnv | NameScope

  /** The key of an `add_to_env`: the node's `name`, or each of its `ids`. */
  datatype RegKey = ByName | ByIds

  /** The value of an `add_to_env`: the node itself, or its `subp_spec` field. */
  datatype RegValue = SelfNode | SubpSpecField

  datatype AddToEnv = AddToEnv(key: RegKey, value: RegValue)

  datatype EnvSpec = EnvSpec(initialEnv: InitialEnv, addEnv: bool, addToEnv: Option<AddToEnv>)

  /** `EnvSpec(add_env=True)` */
  const ScopeOnly := EnvSpec(CurrentEnv, true, None)

  /** The specification the `child_unit` macro produces:
      `EnvSpec(initial_env=Self.scope, add_env=True, add_to_env=(Self.name, value))`. */
  function ChildUnit(value: RegValue): EnvSpec
  {
    EnvSpec(NameScope, true, Some(AddToEnv(ByName, value)))
  }

  predicate IsChildUnit(d: DeclNode)
  {
    d.PackageDecl? || d.GenericPackageDecl? || d.PackageBody? || d.SubprogramDecl? || d.SubprogramBody?
  }

  /** The `env_spec` of each declaration kind, when it has one. */
  function EnvSpecOf(d: DeclNode): (r: Option<EnvSpec>)
    ensures r.Some? && r.value.addToEnv.Some? && r.value.addToEnv.value.value == SubpSpecField
      ==> d.SubprogramDecl? || d.SubprogramBody?
    ensures r.Some? && r.value.addToEnv.Some? && r.value.addToEnv.value.key == ByIds ==> d.ObjectDecl?
    ensures r.Some? && r.value.initialEnv == NameScope <==> IsChildUnit(d)
    ensures d.SubprogramDecl? || d.SubprogramBody? ==>
      r.Some? && r.value.addEnv && r.value.addToEnv == Some(AddToEnv(ByName, SubpSpecField))
    ensures d.PackageDecl? || d.GenericPackageDecl? || d.PackageBody? ==>
      r.Some? && r.value.addEnv && r.value.addToEnv == Some(AddToEnv(ByName, SelfNode))
  {
    match d
    case CompilationUnit(_) => Some(ScopeOnly)
    case RecordDef(_) => Some(ScopeOnly)
    case PrivatePart(_) => Some(ScopeOnly)
    case BlockStatement(_) => Some(ScopeOnly)
    case FullTypeDecl(_, _) => Some(EnvSpec(CurrentEnv, false, Some(AddToEnv(ByName, SelfNode))))
    case SubtypeDecl(_, _) => Some(EnvSpec(CurrentEnv, false, Some(AddToEnv(ByName, SelfNode))))
    case ObjectDecl(_, _) => Some(EnvSpec(CurrentEnv, false, Some(AddToEnv(ByIds, SelfNode))))
    case NumberDecl(_, _) => None
    case ExceptionDecl(_, _) => None
    case ParameterProfile(_, _) => None
    case SubprogramDecl(_, _) => Some(ChildUnit(SubpSpecField))
    case SubprogramBody(_, _) => Some(ChildUnit(SubpSpecField))
    case PackageDecl(_, _) => Some(ChildUnit(SelfNode))
    case GenericPackageDecl(_, _) => Some(ChildUnit(SelfNode))
    case PackageBody(_, _) => Some(ChildUnit(SelfNode))
  }

  /** The `name` property of the declarations that have one. */
  function NameNode(d: DeclNode): (r: Option<Node>)
    ensures r.Some? <==> IsChildUnit(d) || d.FullTypeDecl? || d.SubtypeDecl?
  {
    match d
    case FullTypeDecl(_, t) => Some(t)
    case SubtypeDecl(_, i) => Some(i)
    case SubprogramDecl(_, ss) => Some(ss.name)
    case SubprogramBody(_, ss) => Some(ss.name)
    case PackageDecl(_, nm) => Some(nm)
    case GenericPackageDecl(_, nm) => Some(nm)
    case PackageBody(_, nm) => Some(nm)
    case _ => None
  }

  /** The symbols an `add_to_env` key evaluates to. */
  function KeySymbols(d: DeclNode, key: RegKey): Result<seq<Symbol>>
  {
    match key
    case ByIds => if d.ObjectDecl? then Success(d.ids) else Failure(AbstractProperty)
    case ByName =>
      match NameNode(d)
      case None => Failure(AbstractProperty)
      case Some(nm) =>
        match Names.NameOf(nm)
        case Success(s) => Success([s])
        case Failure(err) => Failure(err)
  }

  function ValueOf(d: DeclNode, value: RegValue): Entity
    requires value == SubpSpecField ==> d.SubprogramDecl? || d.SubprogramBody?
  {
    match value
    case SelfNode => Decl(d)
    case SubpSpecField => Spec(d.subpSpec, d.handle)
  }

  /** The entries the node's `add_to_env` adds: one per key symbol, each mapped to
      the value. */
  function Registrations(d: DeclNode): (r: Result<seq<(Symbol, Entity)>>)
    ensures r.Success? && |r.value| > 1 ==> d.ObjectDecl?
    ensures EnvSpecOf(d).None? ==> r == Success([])
  {
    match EnvSpecOf(d)
    case None => Success([])
    case Some(spec) =>
      match spec.addToEnv
      case None => Success([])
      case Some(a) =>
        match KeySymbols(d, a.key)
        case Failure(err) => Failure(err)
        case Success(keys) =>
          var v := ValueOf(d, a.value);
          Success(seq(|keys|, i requires 0 <= i < |keys| => (keys[i], v)))
  }

  /** The environment the node's actions start from: `Self.scope` for a child unit,
      the current environment otherwise. */
  function InitialEnvOf(lex: Names.Lexical, d: DeclNode, env: Names.EnvId): (r: Result<Names.EnvId>)
    ensures !IsChildUnit(d) ==> r == Success(env)
  {
    match EnvSpecOf(d)
    case Some(spec) =>
      (if spec.initialEnv == NameScope && NameNode(d).Some? then Names.Scope(lex, NameNode(d).value, env)
       else Success(env))
    case None => Success(env)
  }

  /** What an entry refers back to: subprogram specifications are only ever added by
      subprogram declarations and bodies, for their own `subp_spec`; every other
      value is the declaring node itself. */
  lemma RegisteredValues(d: DeclNode)
    requires Registrations(d).Success?
    ensures forall i :: 0 <= i < |Registrations(d).value| ==>
      var e := Registrations(d).value[i].1;
      && (e.Spec? ==> (d.SubprogramDecl? || d.SubprogramBody?) && e.spec == d.subpSpec && e.owner == d.handle)
      && (e.Decl? ==> e.node == d)
    ensures d.SubprogramDecl? || d.SubprogramBody? ==>
      forall i :: 0 <= i < |Registrations(d).value| ==> Registrations(d).value[i].1 == Spec(d.subpSpec, d.handle)
    ensures !(d.SubprogramDecl? || d.SubprogramBody?) ==>
      forall i :: 0 <= i < |Registrations(d).value| ==> Registrations(d).value[i].1 == Decl(d)
  {
  }

  /** Compilation units, record definitions, private parts and blocks only open a
      scope; number, exception and parameter declarations have no environment
      specification. None of them adds an entry. */
  lemma UnregisteredKinds(d: DeclNode)
    requires || d.CompilationUnit? || d.RecordDef? || d.PrivatePart? || d.BlockStatement?
             || d.NumberDecl? || d.ExceptionDecl? || d.ParameterProfile?
    ensures Registrations(d) == Success([])
    ensures EnvSpecOf(d).Some? <==> !(d.NumberDecl? || d.ExceptionDecl? || d.ParameterProfile?)
    ensures EnvSpecOf(d).Some? ==> EnvSpecOf(d).value.addEnv
  {
  }

  /** An object declaration adds each of its identifiers, in order, for itself, to
      the current environment, and opens no scope. */
  lemma ObjectDeclRegistersEachId(lex: Names.Lexical, d: DeclNode, env: Names.EnvId)
    requires d.ObjectDecl?
    ensures Registrations(d).Success?
    ensures |Registrations(d).value| == |d.ids|
    ensures forall i :: 0 <= i < |d.ids| ==> Registrations(d).value[i] == (d.ids[i], Decl(d))
    ensures InitialEnvOf(lex, d, env) == Success(env) && !EnvSpecOf(d).value.addEnv
  {
  }

  /** A type or subtype declaration adds itself under its identifier, to the current
      environment, and opens no scope. */
  lemma TypeDeclRegistersItself(lex: Names.Lexical, d: DeclNode, env: Names.EnvId)
    requires (d.FullTypeDecl? && d.typeId.Tok?) || (d.SubtypeDecl? && d.id.Tok?)
    ensures Registrations(d) == Success([(if d.FullTypeDecl? then d.typeId.tok else d.id.tok, Decl(d))])
    ensures IsTypeDecl(Decl(d))
    ensures InitialEnvOf(lex, d, env) == Success(env) && !EnvSpecOf(d).value.addEnv
  {
    var r := Registrations(d).value;
    assert |r| == 1 && r[0] == (if d.FullTypeDecl? then d.typeId.tok else d.id.tok, Decl(d));
    assert r == [r[0]];
  }

  /** A child unit named `P.Q.C` opens a scope and adds one entry, under `C`. Its
      actions start from the name's `scope`: the environment designated by the
      prefix of the name, that is, the one reached by resolving `P` then `Q` when
      the name is nested as `(P.Q).C`. A simple name starts from the current
      environment. */
  lemma ChildUnitPlacement(lex: Names.Lexical, d: DeclNode, env: Names.EnvId)
    requires IsChildUnit(d) && IsDottedName(NameNode(d).value)
    ensures EnvSpecOf(d).value.addEnv
    ensures var nm, segs := NameNode(d).value, Segments(NameNode(d).value);
      && InitialEnvOf(lex, d, env) == (if nm.Tok? then Success(env) else Names.WalkEnv(lex, env, Segments(nm.prefix)))
      && ((nm.Tok? || nm.suffix.Tok?) ==> InitialEnvOf(lex, d, env) == Names.WalkEnv(lex, env, AllButLast(segs)))
      && Registrations(d).Success?
      && |Registrations(d).value| == 1
      && Registrations(d).value[0].0 == Last(segs)
  {
    var nm := NameNode(d).value;
    Names.NameIsLastSegment(nm);
    Names.ScopeOfDottedName(lex, nm, env);
    if nm.Prefix? && nm.suffix.Tok? {
      assert AllButLast(Segments(nm.suffix)) == [];
    }
  }

  /** A right-nested child-unit name `P.(Q.C)` starts from `P`'s environment only,
      although `C` in that name is looked up in the one reached through `P` then `Q`. */
  lemma RightNestedChildUnit(lex: Names.Lexical, h: nat, env: Names.EnvId)
    ensures var nm := Prefix(Tok(Identifier, "P"), Prefix(Tok(Identifier, "Q"), Tok(Identifier, "C")));
      && InitialEnvOf(lex, PackageDecl(h, nm), env) == Names.WalkEnv(lex, env, ["P"])
      && Registrations(PackageDecl(h, nm)) == Success([("C", Decl(PackageDecl(h, nm)))])
      && forall ctx :: Names.EnvElements(lex, nm, ctx, env) ==
           match Names.WalkEnv(lex, env, ["P", "Q"])
           case Success(e) => Success(Names.Lookup(lex, e, "C", true))
           case Failure(err) => Failure(err)
  {
    var nm := Prefix(Tok(Identifier, "P"), Prefix(Tok(Identifier, "Q"), Tok(Identifier, "C")));
    ChildUnitPlacement(lex, PackageDecl(h, nm), env);
    assert Segments(nm) == ["P", "Q", "C"];
    assert AllButLast(Segments(nm)) == ["P", "Q"];
    var r := Registrations(PackageDecl(h, nm)).value;
    assert r == [r[0]];
    forall ctx ensures Names.EnvElements(lex, nm, ctx, env) ==
           match Names.WalkEnv(lex, env, ["P", "Q"])
           case Success(e) => Success(Names.Lookup(lex, e, "C", true))
           case Failure(err) => Failure(err)
    {
      Names.DottedNameElements(lex, nm, ctx, env);
      var c1 := [Frame(nm, SuffixSlot)] + ctx;
      var c2 := [Frame(nm.suffix, SuffixSlot)] + c1;
      assert Names.LastSegmentNode(nm.suffix, c1) == (Tok(Identifier, "C"), c2);
      var last := Names.LastSegmentNode(nm, ctx);
      assert last == (Tok(Identifier, "C"), c2);
      Names.HasCallExprHead(last.0, last.1);
    }
  }
}
