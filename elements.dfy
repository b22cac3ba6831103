/**
 * What lexical environments hold: declaration nodes and subprogram profiles,
 * each stored with its two metadata facets.
 */
module Elements {
  import opened Base
  import opened Syntax
  import Subprograms

  /** The declaration nodes whose environment behaviour the model covers. Each
      carries a handle (its identity in the tree) and the fields its
      environment specification reads. */
  datatype DeclNode =
    | CompilationUnit(handle: nat)
    | RecordDef(handle: nat)
    | PrivatePart(handle: nat)
    | BlockStatement(handle: nat)
    | FullTypeDecl(handle: nat, typeId: Node)
    | SubtypeDecl(handle: nat, id: Node)
    | ObjectDecl(handle: nat, ids: seq<Symbol>)
    | NumberDecl(handle: nat, ids: seq<Symbol>)
    | ExceptionDecl(handle: nat, ids: seq<Symbol>)
    | ParameterProfile(handle: nat, profile: Subprograms.ParameterProfile)
    | SubprogramDecl(handle: nat, subpSpec: Subprograms.SubprogramSpec)
    | SubprogramBody(handle: nat, subpSpec: Subprograms.SubprogramSpec)
    | PackageDecl(handle: nat, packageName: Node)
    | GenericPackageDecl(handle: nat, packageName: Node)   // the name of its `package_decl`
    | PackageBody(handle: nat, packageName: Node)

  /** An environment value: a declaration node, or the subprogram specification
      owned by the declaration with handle `owner`. */
  datatype Entity =
    | Decl(node: DeclNode)
    | Spec(spec: Subprograms.SubprogramSpec, owner: nat)

  /** How an entry was reached. */
  datatype Metadata = Metadata(dottableSubprogram: bool, implicitDeref: bool)

  datatype EnvElement = EnvElement(el: Entity, md: Metadata)

  /** `e.is_a(SubtypeDecl, FullTypeDecl)` */
  predicate IsTypeDecl(e: Entity)
  {
    e.Decl? && (e.node.SubtypeDecl? || e.node.FullTypeDecl?)
  }

  /** `is_package`: `e.is_a(PackageDecl, PackageBody)` */
  predicate IsPackage(e: Entity)
  {
    e.Decl? && (e.node.PackageDecl? || e.node.PackageBody?)
  }
}
