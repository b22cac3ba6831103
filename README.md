# Ada name resolution and call matching, modelled in Dafny

This project models the semantic core of the Ada syntax tree of
`ada/language/ast.py`. That core contains four parts:

- **Subprogram profile and call matching** (`SubprogramSpec`). The parameter groups of a
  profile are flattened into (identifier, group) couples, then counted
  (`nb_min_params`, `nb_max_params`). Each actual of a call gets a `ParamMatch`, and three
  conditions decide whether the whole list of actuals matches. A cheap per-actual test
  (`match_param_assoc`) sits beside them.
- **Candidate lookup for identifiers** (`BaseId`). The `has_callexpr` test decides whether
  an identifier is in call position. Outside call position, subprograms that need actuals
  are filtered out of `Env.get`. `get_type` picks the first candidate that is a type
  declaration.
- **Dotted names** (`Prefix`). For `A.B.C`, the suffix's properties are evaluated in the
  environment designated by the prefix.
- **Environment specifications**. This is the table of which declaration nodes open a
  scope, which names they add, what each name denotes, and from which environment the
  node starts. The table includes the child-unit rule.

Everything in the core is a pure property of the tree, so the model is made of
datatypes, total functions over them, and lemmas.

- `base.dfy` holds symbols, `Option`/`Result` and the error kinds. It also holds `filter`,
  `take_while` and `at`, with their lemmas.
- `syntax.dfy` holds expression nodes and the context of a node. The context is the chain
  of its ancestors, each with the field that leads back down. It is used for `parents`,
  for node identity, and for dotted-name segments.
- `subprograms.dfy` holds `SubprogramSpec`, `SingleParameter`, `ParamMatch` and
  `ParamAssoc`, the matching functions, and their lemmas.
- `elements.dfy` holds declaration nodes, `Entity`, `Metadata` and `EnvElement`.
- `names.dfy` holds `designated_env`, `scope`, `name`, `env_elements`, `entities`,
  `get_type` and `has_callexpr`, with their lemmas.
- `declarations.dfy` holds the environment-specification table and the entries it
  produces.

The lexical environment is not part of this file. It is an abstract `Lexical` value with
three operations:

- `get` is `Env.get`.
- `resolveUnique` is `Env.resolve_unique`.
- `parentEnv` is `.parent_env`.

Every property takes the environment it is evaluated in as an argument, so
`x.eval_in_env(e)` is the same property called with `e`.

Three facts about `ast.py` shape the model:

- `match_param_assoc` does not do what its comments say (see Findings).
- The call matching (`match_param_list`, `is_matching_param_list`, lines 894-950)
  never elides a dot-notation receiver. The `dottable_subprogram` facet is read only by
  the `BaseId` filter (line 806). That filter accepts such a subprogram outside call
  position when it has exactly one mandatory formal.
- Taking `parents` to start with the node itself (see "## Left out"), `has_callexpr`
  (lines 773-793) holds for the suffix of every prefix, whether or not a call encloses it. In `X := A.B;`, `B` has it, so its candidates are not filtered. The
  documentation describes it as "the main symbol ... in a Call expression"
  (`Names.SuffixOutsideCallExample`).

The `has_callexpr` documentation example says `B` is not in call position in
`A.B.C (12, 15)`. That is true when the name is nested as `A.(B.C)`. When it is nested as
`(A.B).C`, `B` is the suffix of the prefix `A.B` and comes out in call position. The
grammar is not part of this model, so both shapes are stated by lemmas. The nesting
also matters for `scope`, which is the environment the prefix designates. For a
right-nested `A.(B.C)`, `scope` is `A`'s environment, while `C` is looked up in the
environment reached through `A` then `B`.

## Model

| member | source | states |
|---|---|---|
| `Subprograms.FlattenMember` | ada/language/ast.py:866-874 | a couple (identifier, group) is in `typed_param_list` exactly when the group is one of the profile's groups and the identifier is one of its identifiers |
| `Subprograms.FlattenConcat` | ada/language/ast.py:867-871 | flattening goes group by group: the couples of earlier groups come first |
| `Subprograms.NbMaxParamsIsIdCount` | ada/language/ast.py:886-892 | `nb_max_params` is the total number of identifiers over all groups |
| `Subprograms.NbMinParamsIsRequiredIdCount` | ada/language/ast.py:876-884 | `nb_min_params` is the number of identifiers over the groups without a default, and never exceeds `nb_max_params` |
| `Subprograms.FindFormal` | ada/language/ast.py:922-923 | `find` by symbol (`matches` compares the symbols): the result is the first formal with that name, and there is none exactly when no formal has the name |
| `Subprograms.TypedParamList` | ada/language/ast.py:866-874 | `typed_param_list` has one formal per identifier over all groups, each from one of the profile's groups and among that group's identifiers |
| `Subprograms.NbMinParams` | ada/language/ast.py:876-884 | `nb_min_params` (formals without default) never exceeds `nb_max_params`, and is 0 exactly when every formal has a default |
| `Subprograms.NbMaxParams` | ada/language/ast.py:886-892 | `nb_max_params`: the number of formals; `Subprograms.NbMaxParamsIsIdCount` relates it to an independent count |
| `Subprograms.MatchActual` | ada/language/ast.py:908-931 | the `ParamMatch` of one actual: a failed match is always `(false, false)`, and a successful one takes its optionality from some formal, the one at the actual's own position when the actual is positional |
| `Subprograms.IsMatchingParamList` | ada/language/ast.py:935-950 | the three conditions of `is_matching_param_list`; `Subprograms.MatchingArity` and `Subprograms.PositionalMatching` state what they mean |
| `Subprograms.MatchParamAssoc` | ada/language/ast.py:952-978 | `match_param_assoc` as written; `Subprograms.MatchParamAssocAsWritten` states what it reduces to |
| `Subprograms.MatchParamAssocIntended` | ada/language/ast.py:959-976 | `match_param_assoc` as its comments describe it; `Subprograms.IntendedPrefilterSound` proves it never rejects an actual of a matching call |
| `Subprograms.MatchParamList` | ada/language/ast.py:894-933 | `match_param_list` gives exactly one `ParamMatch` per actual |
| `Subprograms.MatchIsPerActual` | ada/language/ast.py:908-931 | an actual's match depends only on the actual and, when it is positional, on its own index, even when earlier actuals are named |
| `Subprograms.MatchPositional` | ada/language/ast.py:909-917 | a positional actual at index `i` matches exactly when `i < nb_max_params`; it is then optional when the `i`th formal has a default, and otherwise gives `(false, false)` |
| `Subprograms.MatchNamed` | ada/language/ast.py:919-930 | a named actual with an identifier designator matches exactly when some formal has that name; it is optional as the first such formal is, and otherwise gives `(false, false)` |
| `Subprograms.MatchOtherDesignator` | ada/language/ast.py:922-930 | a designator that is not an `Identifier` gives `(false, false)` |
| `Subprograms.MatchingArity` | ada/language/ast.py:935-950 | a matching list of actuals has between `nb_min_params` and `nb_max_params` elements |
| `Subprograms.PositionalMandatoryCount` | ada/language/ast.py:908-917 | a positional call with no more actuals than formals matches every actual, and its mandatory matches are exactly the formals without default among the first `len(actuals)` |
| `Subprograms.PositionalMatching` | ada/language/ast.py:935-950 | for all-positional actuals, `is_matching_param_list` holds exactly when there are at most `nb_max_params` of them and every formal left without an actual has a default |
| `Subprograms.CallMatchingExamples` | ada/language/ast.py:935-950 | for `(X : T; Y : T := D)`: `(1)` matches, with `X` mandatory; `(1, 2, 3)` does not match; `(Y => 2)` matches its actual individually but fails as a whole (0 mandatory matches, not 1) |
| `Subprograms.CountNotCoverage` | ada/language/ast.py:943-946 | the mandatory formals are counted, not covered: for `(X : T; Y : T)`, `(X => 1, X => 2)` matches although no actual is given for `Y` |
| `Subprograms.MatchParamAssocAsWritten` | ada/language/ast.py:952-978 | as written, `match_param_assoc` holds exactly when there is a formal and the actual has a designator |
| `Subprograms.MatchParamAssocCounterexample` | ada/language/ast.py:964-975 | the written test rejects the positional actual of the matching call `F (1)` against `(X : T)`, and accepts `Z => 1`, which names no formal |
| `Subprograms.IntendedPrefilterSound` | ada/language/ast.py:952-978 | the test as its comments describe it never rejects an actual of a call that `is_matching_param_list` accepts |
| `Syntax.Parents` | ada/language/ast.py:774 | `parents` is the node, then each ancestor up to the root; each element but the last knows its parent and the field it occupies |
| `Names.HasCallExprHead` | ada/language/ast.py:773-793 | since a `take_while` is non-empty exactly when its head qualifies, `has_callexpr` holds exactly when the node is a call, or is a field of a call, or is the suffix of a prefix |
| `Names.SimpleCallExample` | ada/language/ast.py:784-785 | in `C (12, 15)`, `C` has `has_callexpr` |
| `Names.RightNestedCallExample` | ada/language/ast.py:787-791 | in `A.B.C (12, 15)` nested as `A.(B.C)`, `C` has `has_callexpr` and `B` and `A` do not, as documented |
| `Names.LeftNestedCallExample` | ada/language/ast.py:787-791 | in `A.B.C (12, 15)` nested as `(A.B).C`, `C` and also `B` have `has_callexpr`, and `A` does not |
| `Names.HasCallExpr` | ada/language/ast.py:773-793 | `has_callexpr` as a `take_while` over `parents`; `Names.HasCallExprHead` reduces it to the node's own position |
| `Names.SuffixOutsideCallExample` | ada/language/ast.py:773-793 | in `X := A.B;`, where no call encloses `B`, `B` still has `has_callexpr` |
| `Names.ValidOutsideCall` | ada/language/ast.py:802-808 | the filter predicate of `BaseId.env_elements`; `Names.IdElementsOutsideCall` states what it keeps |
| `Names.Lookup` | ada/language/ast.py:795-809 | an identifier token's candidates are never more than `Env.get` returns, and outside call position each of them passes the filter |
| `Names.DesignatedEnv` | ada/language/ast.py:759-761 | `designated_env` of `BaseId` and (lines 1048-1051) of `Prefix`; `Names.DesignatedEnvIsWalk` relates it to a walk over the segments |
| `Names.Scope` | ada/language/ast.py:762 | `scope`: the current environment for an identifier and (line 1053) the prefix's designated environment for a prefix; `Names.ScopeOfDottedName` and `Names.QualifiedScope` state it for dotted names |
| `Names.ScopeOfDottedName` | ada/language/ast.py:1053 | `scope` of any dotted name is the walk over its prefix's segments, and that prefix is a prefix of the segments `C` is looked up through |
| `Names.NameOf` | ada/language/ast.py:743 | `name` of a token node and (line 1055) of a prefix; `Names.NameIsLastSegment` states it for dotted names |
| `Names.EnvElements` | ada/language/ast.py:795-809 | `env_elements` of `BaseId` and (lines 1057-1059) of `Prefix`; stated by `Names.IdElementsInCall`, `Names.IdElementsOutsideCall` and `Names.DottedNameElements` |
| `Names.GetType` | ada/language/ast.py:769-771 | `get_type` of `BaseId` and (lines 1064-1068) of `Prefix`; stated by `Names.IdTypeIsFirstTypeDecl` and `Names.PrefixTypeFromFirstPackage` |
| `Elements.IsTypeDecl` | ada/language/ast.py:770 | the `is_a(SubtypeDecl, FullTypeDecl)` test of `get_type` |
| `Elements.IsPackage` | ada/language/ast.py:589-602 | `is_package`: a `PackageDecl` or a `PackageBody` |
| `Names.IdElementsInCall` | ada/language/ast.py:796-800 | in call position, an identifier's `env_elements` is exactly `Env.get` of its token |
| `Names.IdElementsOutsideCall` | ada/language/ast.py:802-809 | outside call position, the result never fails and is no longer than the lookup; an entry is in it exactly when it is in the lookup and is not a subprogram, or is one with no mandatory formal, or is dottable with exactly one; a lookup without subprograms is returned whole |
| `Names.IdElementsKeepOrder` | ada/language/ast.py:804-809 | the filter keeps the order of the lookup: splitting the lookup splits the result the same way |
| `Names.Entities` | ada/language/ast.py:638-644 | `entities` fails exactly when `env_elements` does; otherwise it is the same candidates, in order, without their metadata |
| `Names.IdTypeIsFirstTypeDecl` | ada/language/ast.py:765-771 | an identifier's `get_type` is its first candidate that is a `SubtypeDecl` or `FullTypeDecl`, skipping nearer candidates that are not types; it is null exactly when no candidate is a type |
| `Names.NameIsLastSegment` | ada/language/ast.py:1055 | `name` of a dotted name is its last segment (`C` for `A.B.C`) |
| `Names.DesignatedEnvIsWalk` | ada/language/ast.py:1048-1051 | `designated_env` of a dotted name is the environment reached by resolving each segment uniquely and moving into its `parent_env`, whatever the nesting; the first failing resolution fails it |
| `Names.DottedNameElements` | ada/language/ast.py:1057-1059 | `env_elements` of `A.B.C` is the lookup of `C`, filtered as `C`'s own position decides, in the environment reached through `A` then `B`; it fails when reaching that environment fails |
| `Names.QualifiedScope` | ada/language/ast.py:1053 | `scope` of `P.C` is the environment `P` designates, and `C`'s candidates are looked up there |
| `Names.QualifierRedirectsLookup` | ada/language/ast.py:1057-1059 | a prefix's candidates depend on the evaluation environment only through the environment its own prefix designates |
| `Names.PrefixTypeFromFirstPackage` | ada/language/ast.py:1061-1068 | `Prefix.get_type` evaluates the suffix's type in the environment of the prefix's first package candidate, skipping non-packages; when there is no package candidate it fails on a null node |
| `Declarations.NameNode` | ada/language/ast.py:147 | the `name` property of the declarations that have one: full types (line 147), subtypes (269), subprogram declarations and bodies through `subp_spec.name` (393, 1089), packages and package bodies (513, 1228), and generic packages through their package declaration (586, folded into the `packageName` field); exactly the child units and the two type declarations have one; stated further by `Declarations.TypeDeclRegistersItself` and `Declarations.ChildUnitPlacement` |
| `Declarations.IsChildUnit` | ada/language/ast.py:383 | the classes whose `_macros` use `child_unit`: subprogram declarations (383), package declarations (520), generic package declarations (582), subprogram bodies (1080) and package bodies (1221); the third `ensures` of `Declarations.EnvSpecOf` states that exactly these start from their name's `scope` |
| `Declarations.ChildUnit` | ada/language/ast.py:69-74 | the environment specification `child_unit` builds: start from the name's `scope`, open a scope, add the name with the given value; stated by `Declarations.EnvSpecOf` and `Declarations.ChildUnitPlacement` |
| `Declarations.Registrations` | ada/language/ast.py:69-74 | the entries a node's `add_to_env` adds: only an object declaration adds more than one, and a node without environment specification adds none |
| `Declarations.InitialEnvOf` | ada/language/ast.py:70 | a node that is not a child unit starts from the current environment; a child unit from its name's `scope` (`Declarations.ChildUnitPlacement`) |
| `Declarations.EnvSpecOf` | ada/language/ast.py:65-74 | in the environment-specification table, subprogram declarations and bodies, and only they, register their `subp_spec` under their name; package declarations, generic package declarations and package bodies register themselves under their name; all of them open a scope; only object declarations register by `ids`; a node starts from its name's `scope` exactly when it is a child unit |
| `Declarations.RegisteredValues` | ada/language/ast.py:383 | every entry a subprogram declaration or body (line 1080) adds is its own `subp_spec`, not the node; every entry any other node adds is that node itself; an entry that is a subprogram specification comes from a subprogram declaration or body |
| `Declarations.UnregisteredKinds` | ada/language/ast.py:1071-1076 | compilation units, and likewise record definitions, private parts and blocks (lines 126, 492, 1180), only open a scope; number, exception and parameter declarations (lines 370-375, 523-529) have no environment specification; none of them adds an entry |
| `Declarations.ObjectDeclRegistersEachId` | ada/language/ast.py:477-487 | an object declaration adds each of its identifiers, in order, for itself, from the current environment, and opens no scope |
| `Declarations.TypeDeclRegistersItself` | ada/language/ast.py:141-148 | a full type declaration, and likewise a subtype declaration (line 271), adds itself under its identifier, from the current environment, and opens no scope |
| `Declarations.ChildUnitPlacement` | ada/language/ast.py:65-74 | a child unit with a dotted name of any nesting opens a scope and adds one entry, under the last segment; it starts from the environment reached by resolving the segments of the name's prefix, which is all but the last segment when the name is nested as `(P.Q).C`; a simple name starts from the current environment |
| `Declarations.RightNestedChildUnit` | ada/language/ast.py:1053 | for a package named `P.(Q.C)`, the actions start from `P`'s environment and add `C`, while `C` in that name is looked up through `P` then `Q` |

## Left out

- The lexical environment (`Env.get`, `resolve_unique`, `parent_env`, and the
  environment chain walk) belongs to the langkit library, which is not part of this
  model. These are abstract operations of `Names.Lexical`, and `eval_in_env` is
  evaluation with another environment argument.
- `Self.parents` is assumed to start with the node itself, then its ancestors; the
  langkit definition is not part of this model. `Names.HasCallExprHead`,
  `Names.SimpleCallExample`, `Names.RightNestedCallExample`,
  `Names.LeftNestedCallExample` and `Names.SuffixOutsideCallExample` rest on it. If
  `parents` left the node out, the documented `A.B.C (12, 15)` verdicts would hold for
  `(A.B).C` instead, and `B` in `X := A.B;` would not be in call position.
- `Env.get` is assumed to return an empty sequence when nothing is found, rather than
  failing. Only `resolve_unique` fails, with `UnboundName` or `AmbiguousName`. The
  "never fails" part of `Names.IdElementsOutsideCall` and `Names.IdElementsInCall`
  rests on this assumption.
- The environment builder's traversal belongs to langkit too. So does the fallback to
  lexical placement when a child unit's scope cannot be resolved.
  `Declarations.InitialEnvOf` returns `scope`'s result, failure included, not the
  fallback. The model does not say which environment an entry is added to once
  `add_env` has opened a new one.
- Case-insensitive symbol interning (`tok.symbol`) is not modelled. Symbols are compared
  by equality, which is all `SingleTokNode.matches` does.
- The key under which `add_to_env` files a name node is taken to be the node's trailing
  identifier (its `name` property). The library code that turns the node into a key is
  not part of this model.
- The langkit code-generation plumbing is not modelled: `create_macro`,
  `AbstractProperty`, `root_grammar_class`, `env_metadata` and `is_simple_expr`. In
  `child_unit`, a trailing comma makes `env_spec_name` a tuple, and the `if` is inverted
  relative to its comment (lines 76-78). Only the resulting environment specification at
  lines 69-74 is modelled.
- Field-only node classes carry no behaviour and are not modelled: type definitions,
  constraints, statements, aspects, tasks and protected objects, and the enumeration
  types. Expression kinds other than `BaseId` and `Prefix` are modelled only as failing
  with `AbstractProperty` when an abstract property is called on them.
- Node fields that no property reads are not modelled: parameter modes and types, and
  `returns`. The expression of a parameter association (`ParamAssoc.expr`) and
  `Metadata.implicit_deref` are carried but never read.
- `CallExpr`'s own candidate filtering is not defined in this file, so it is not
  modelled.
- The `null` dereference in `Prefix.get_type` is modelled as the failure `NullNode`.
  That is when `at(0)` finds no package candidate, and the failure behaviour comes from
  the library.
- Grammar and parsing are not modelled. The tree is given, and the nesting of dotted
  names is left open (see above).

## Findings

| source | as written | input that shows it | evidently intended | confidence | as-written member | corrected member |
|---|---|---|---|---|---|---|
| ada/language/ast.py:967 | `Not(pa.designator.is_null)` makes every designated actual match and every positional actual fail | profile `(X : T)`: the call `F (1)` matches in full, yet its actual `1` is rejected; the actual `Z => 1` is accepted although no formal is named `Z` | positional actuals always match, and named ones match only when they name a formal (lines 965-970) | high; not executed | `Subprograms.MatchParamAssoc`, shown by `Subprograms.MatchParamAssocCounterexample` | `Subprograms.MatchParamAssocIntended`, proved sound by `Subprograms.IntendedPrefilterSound` |
