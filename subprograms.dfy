/**
 * Subprogram profiles and the arity/designator matching of a call's actual
 * parameters against them (`SubprogramSpec` and its helper records).
 */
module Subprograms {
  import opened Base
  import opened Syntax

  /** One parameter group `X, Y : T := D`: its identifiers and whether it has a default. */
  datatype ParameterProfile = ParameterProfile(ids: seq<Symbol>, hasDefault: bool)

  datatype SubprogramSpec = SubprogramSpec(name: Node, params: seq<ParameterProfile>)

  /** A formal parameter after flattening: one identifier and the group it comes from. */
  datatype SingleParameter = SingleParameter(name: Symbol, profile: ParameterProfile)

  /** Per actual parameter: was a formal found for it, and does that formal have a default. */
  datatype ParamMatch = ParamMatch(hasMatched: bool, isFormalOpt: bool)

  /** An actual parameter `designator => expr`, or just `expr` when positional. */
  datatype ParamAssoc = ParamAssoc(designator: Option<Node>, expr: Node)

  const NoMatch := ParamMatch(false, false)

  /** The formals one group introduces, in the order of its identifiers. */
  function GroupParams(g: ParameterProfile): (r: seq<SingleParameter>)
    ensures |r| == |g.ids|
    ensures forall i :: 0 <= i < |r| ==> r[i] == SingleParameter(g.ids[i], g)
  {
    seq(|g.ids|, i requires 0 <= i < |g.ids| => SingleParameter(g.ids[i], g))
  }

  /** Every flattened formal comes from one of the groups and is one of its identifiers. */
  function Flatten(groups: seq<ParameterProfile>): (r: seq<SingleParameter>)
    ensures forall i :: 0 <= i < |r| ==> r[i].profile in groups && r[i].name in r[i].profile.ids
  {
    if groups == [] then [] else GroupParams(groups[0]) + Flatten(groups[1..])
  }

  /** `typed_param_list`: all (identifier, group) couples, group by group. */
  function TypedParamList(spec: SubprogramSpec): (r: seq<SingleParameter>)
    ensures |r| == IdCount(spec.params)
    ensures forall i :: 0 <= i < |r| ==> r[i].profile in spec.params && r[i].name in r[i].profile.ids
  {
    FlattenLength(spec.params);
    Flatten(spec.params)
  }

  predicate IsRequired(p: SingleParameter)
  {
    !p.profile.hasDefault
  }

  /** `nb_min_params`: the number of formals without a default. */
  function NbMinParams(spec: SubprogramSpec): (r: nat)
    ensures r <= NbMaxParams(spec)
    ensures r == 0 <==> forall i :: 0 <= i < NbMaxParams(spec) ==> TypedParamList(spec)[i].profile.hasDefault
  {
    FilterEmpty(IsRequired, TypedParamList(spec));
    |Filter(IsRequired, TypedParamList(spec))|
  }

  /** `nb_max_params`: the number of formals. */
  function NbMaxParams(spec: SubprogramSpec): nat
  {
    |TypedParamList(spec)|
  }

  // Independent counts over the groups themselves.

  function IdCount(groups: seq<ParameterProfile>): nat
  {
    if groups == [] then 0 else |groups[0].ids| + IdCount(groups[1..])
  }

  function RequiredIdCount(groups: seq<ParameterProfile>): nat
  {
    if groups == [] then 0
    else (if groups[0].hasDefault then 0 else |groups[0].ids|) + RequiredIdCount(groups[1..])
  }

  lemma {:induction false} FlattenConcat(a: seq<ParameterProfile>, b: seq<ParameterProfile>)
    ensures Flatten(a + b) == Flatten(a) + Flatten(b)
  {
    if a == [] {
      assert a + b == b;
    } else {
      assert (a + b)[0] == a[0] && (a + b)[1..] == a[1..] + b;
      FlattenConcat(a[1..], b);
    }
  }

  /** A couple is in the flat list exactly when its group is a group of the profile
      and its identifier is one of that group's identifiers. */
  lemma {:induction false} FlattenMember(groups: seq<ParameterProfile>, p: SingleParameter)
    ensures p in Flatten(groups) <==> p.profile in groups && p.name in p.profile.ids
  {
    if groups != [] {
      FlattenMember(groups[1..], p);
      var g := groups[0];
      assert p in GroupParams(g) <==> p.profile == g && p.name in g.ids by {
        if p.profile == g && p.name in g.ids {
          var i :| 0 <= i < |g.ids| && g.ids[i] == p.name;
          assert GroupParams(g)[i] == p;
        }
      }
      assert groups == [g] + groups[1..];
    }
  }

  lemma {:induction false} FlattenLength(groups: seq<ParameterProfile>)
    ensures |Flatten(groups)| == IdCount(groups)
  {
    if groups != [] {
      FlattenLength(groups[1..]);
    }
  }

  lemma {:induction false} FlattenRequired(groups: seq<ParameterProfile>)
    ensures |Filter(IsRequired, Flatten(groups))| == RequiredIdCount(groups)
  {
    if groups != [] {
      var g := groups[0];
      FilterConcat(IsRequired, GroupParams(g), Flatten(groups[1..]));
      if g.hasDefault {
        FilterEmpty(IsRequired, GroupParams(g));
      } else {
        FilterKeepsAll(IsRequired, GroupParams(g));
      }
      FlattenRequired(groups[1..]);
    }
  }

  /** `nb_max_params` is the total number of identifiers over all groups. */
  lemma NbMaxParamsIsIdCount(spec: SubprogramSpec)
    ensures NbMaxParams(spec) == IdCount(spec.params)
  {
  }

  /** `nb_min_params` is the number of identifiers over the groups without a default,
      so it never exceeds `nb_max_params`. */
  lemma NbMinParamsIsRequiredIdCount(spec: SubprogramSpec)
    ensures NbMinParams(spec) == RequiredIdCount(spec.params)
    ensures NbMinParams(spec) <= NbMaxParams(spec)
  {
    FlattenRequired(spec.params);
  }

  /** `typed_params.find(p => p.name.matches(id))`, as the index of the first formal
      named `sym` (`matches` compares the two symbols). */
  function FindFormal(formals: seq<SingleParameter>, sym: Symbol): (r: Option<nat>)
    ensures r.Some? ==> r.value < |formals| && formals[r.value].name == sym
    ensures r.Some? ==> forall j :: 0 <= j < r.value ==> formals[j].name != sym
    ensures r.None? <==> forall j :: 0 <= j < |formals| ==> formals[j].name != sym
  {
    if formals == [] then None
    else if formals[0].name == sym then Some(0)
    else match FindFormal(formals[1..], sym)
      case None => None
      case Some(k) => Some(k + 1)
  }

  /** The `ParamMatch` of the actual `pa` found at position `i` of the call. */
  function MatchActual(formals: seq<SingleParameter>, i: nat, pa: ParamAssoc): (r: ParamMatch)
    ensures !r.hasMatched ==> r == NoMatch
    ensures r.hasMatched ==> exists k :: 0 <= k < |formals| && r.isFormalOpt == formals[k].profile.hasDefault
    ensures r.hasMatched && pa.designator.None? ==> i < |formals| && r.isFormalOpt == formals[i].profile.hasDefault
  {
    if pa.designator.None? then
      // Positional: there must be a formal at the same position.
      if i < |formals| then ParamMatch(true, formals[i].profile.hasDefault) else NoMatch
    else if IsIdentifier(pa.designator.value) then
      // Named: the designator must name some formal.
      match FindFormal(formals, pa.designator.value.tok)
      case Some(k) => ParamMatch(true, formals[k].profile.hasDefault)
      case None => NoMatch
    else
      NoMatch
  }

  /** `match_param_list`: one `ParamMatch` per actual, in the order of the actuals. */
  function MatchParamList(spec: SubprogramSpec, actuals: seq<ParamAssoc>): (r: seq<ParamMatch>)
    ensures |r| == |actuals|
  {
    var formals := TypedParamList(spec);
    seq(|actuals|, i requires 0 <= i < |actuals| => MatchActual(formals, i, actuals[i]))
  }

  /** The match of an actual depends on nothing but itself and, when it is
      positional, its own position: the other actuals of the call play no part. */
  lemma MatchIsPerActual(spec: SubprogramSpec, a: seq<ParamAssoc>, b: seq<ParamAssoc>, i: nat, j: nat)
    requires i < |a| && j < |b| && a[i] == b[j]
    requires a[i].designator.None? ==> i == j
    ensures MatchParamList(spec, a)[i] == MatchParamList(spec, b)[j]
  {
  }

  /** A positional actual at position `i` matches exactly when there is an `i`th formal,
      whatever the actuals before it are, and is then optional as that formal is. */
  lemma MatchPositional(spec: SubprogramSpec, actuals: seq<ParamAssoc>, i: nat)
    requires i < |actuals| && actuals[i].designator.None?
    ensures MatchParamList(spec, actuals)[i].hasMatched <==> i < NbMaxParams(spec)
    ensures i < NbMaxParams(spec) ==>
      MatchParamList(spec, actuals)[i].isFormalOpt == TypedParamList(spec)[i].profile.hasDefault
    ensures i >= NbMaxParams(spec) ==> MatchParamList(spec, actuals)[i] == NoMatch
  {
  }

  /** A named actual `X => e` matches exactly when some formal is named `X`, and is then
      optional as the first formal of that name is. */
  lemma MatchNamed(spec: SubprogramSpec, actuals: seq<ParamAssoc>, i: nat)
    requires i < |actuals| && actuals[i].designator.Some? && IsIdentifier(actuals[i].designator.value)
    ensures var formals, sym := TypedParamList(spec), actuals[i].designator.value.tok;
      && (MatchParamList(spec, actuals)[i].hasMatched <==>
            exists j :: 0 <= j < |formals| && formals[j].name == sym)
      && (forall k :: 0 <= k < |formals| && formals[k].name == sym
                      && (forall j :: 0 <= j < k ==> formals[j].name != sym)
            ==> MatchParamList(spec, actuals)[i].isFormalOpt == formals[k].profile.hasDefault)
      && (!MatchParamList(spec, actuals)[i].hasMatched ==> MatchParamList(spec, actuals)[i] == NoMatch)
  {
  }

  /** An actual whose designator is not an identifier never matches. */
  lemma MatchOtherDesignator(spec: SubprogramSpec, actuals: seq<ParamAssoc>, i: nat)
    requires i < |actuals| && actuals[i].designator.Some? && !IsIdentifier(actuals[i].designator.value)
    ensures MatchParamList(spec, actuals)[i] == NoMatch
  {
  }

  predicate IsMandatoryMatch(m: ParamMatch)
  {
    !m.isFormalOpt
  }

  /** `is_matching_param_list`: every actual found a formal, as many actuals hit a
      formal without default as there are such formals, and there are not too many actuals. */
  predicate IsMatchingParamList(spec: SubprogramSpec, actuals: seq<ParamAssoc>)
  {
    var matches := MatchParamList(spec, actuals);
    && (forall i :: 0 <= i < |matches| ==> matches[i].hasMatched)
    && |Filter(IsMandatoryMatch, matches)| == NbMinParams(spec)
    && |actuals| <= NbMaxParams(spec)
  }

  /** A matching call has between `nb_min_params` and `nb_max_params` actuals. */
  lemma MatchingArity(spec: SubprogramSpec, actuals: seq<ParamAssoc>)
    requires IsMatchingParamList(spec, actuals)
    ensures NbMinParams(spec) <= |actuals| <= NbMaxParams(spec)
  {
  }

  predicate AllPositional(actuals: seq<ParamAssoc>)
  {
    forall i :: 0 <= i < |actuals| ==> actuals[i].designator.None?
  }

  /** A positional call that fits its formals matches every actual, and hits as many
      formals without default as there are such formals among the first `|actuals|`. */
  lemma PositionalMandatoryCount(spec: SubprogramSpec, actuals: seq<ParamAssoc>)
    requires AllPositional(actuals) && |actuals| <= NbMaxParams(spec)
    ensures forall i :: 0 <= i < |actuals| ==> MatchParamList(spec, actuals)[i].hasMatched
    ensures |Filter(IsMandatoryMatch, MatchParamList(spec, actuals))|
         == |Filter(IsRequired, TypedParamList(spec)[..|actuals|])|
  {
    var formals := TypedParamList(spec);
    FilterLengthPointwise(IsMandatoryMatch, MatchParamList(spec, actuals), IsRequired, formals[..|actuals|]);
  }

  /** The formals from position `n` on all have a default exactly when cutting them off
      leaves the number of formals without default unchanged. */
  lemma RequiredTail(formals: seq<SingleParameter>, n: nat)
    requires n <= |formals|
    ensures |Filter(IsRequired, formals)| == |Filter(IsRequired, formals[..n])|
        <==> forall j :: n <= j < |formals| ==> formals[j].profile.hasDefault
  {
    var head, tail := formals[..n], formals[n..];
    assert formals == head + tail;
    FilterConcat(IsRequired, head, tail);
    assert |Filter(IsRequired, formals)| == |Filter(IsRequired, head)| + |Filter(IsRequired, tail)|;
    FilterEmpty(IsRequired, tail);
    assert (forall j :: 0 <= j < |tail| ==> !IsRequired(tail[j]))
       <==> (forall j :: n <= j < |formals| ==> formals[j].profile.hasDefault) by {
      assert forall j :: 0 <= j < |tail| ==> tail[j] == formals[n + j];
      assert forall j :: n <= j < |formals| ==> formals[j] == tail[j - n];
    }
  }

  /** For a purely positional call, matching is exactly legality by arity: no more
      actuals than formals, and every formal left without an actual has a default. */
  lemma PositionalMatching(spec: SubprogramSpec, actuals: seq<ParamAssoc>)
    requires AllPositional(actuals)
    ensures IsMatchingParamList(spec, actuals) <==>
      && |actuals| <= NbMaxParams(spec)
      && forall j :: |actuals| <= j < NbMaxParams(spec) ==> TypedParamList(spec)[j].profile.hasDefault
  {
    if |actuals| <= NbMaxParams(spec) {
      PositionalMandatoryCount(spec, actuals);
      RequiredTail(TypedParamList(spec), |actuals|);
    }
  }

  /** `match_param_assoc` as the source writes it. */
  predicate MatchParamAssoc(spec: SubprogramSpec, pa: ParamAssoc)
  {
    var formals := TypedParamList(spec);
    var namesFormal := match pa.designator
      case None => false
      case Some(d) => IsIdentifier(d) && exists j :: 0 <= j < |formals| && formals[j].name == d.tok;
    NbMaxParams(spec) > 0 && (pa.designator.Some? || namesFormal)
  }

  /** As written, the designator test only asks whether there is a designator: a
      positional actual never matches, a named one always does. */
  lemma MatchParamAssocAsWritten(spec: SubprogramSpec, pa: ParamAssoc)
    ensures MatchParamAssoc(spec, pa) <==> NbMaxParams(spec) > 0 && pa.designator.Some?
  {
  }

  /** `match_param_assoc` as its comments describe it: positional actuals always
      match, named ones match when the designator is an identifier naming a formal. */
  predicate MatchParamAssocIntended(spec: SubprogramSpec, pa: ParamAssoc)
  {
    var formals := TypedParamList(spec);
    && NbMaxParams(spec) > 0
    && (|| pa.designator.None?
        || (&& IsIdentifier(pa.designator.value)
            && exists j :: 0 <= j < |formals| && formals[j].name == pa.designator.value.tok))
  }

  /** The intended test is a sound pre-filter: it never rejects an actual of a call
      that the full matching accepts. */
  lemma IntendedPrefilterSound(spec: SubprogramSpec, actuals: seq<ParamAssoc>)
    requires IsMatchingParamList(spec, actuals)
    ensures forall i :: 0 <= i < |actuals| ==> MatchParamAssocIntended(spec, actuals[i])
  {
    forall i | 0 <= i < |actuals| ensures MatchParamAssocIntended(spec, actuals[i]) {
      assert MatchParamList(spec, actuals)[i].hasMatched;
      if actuals[i].designator.Some? && IsIdentifier(actuals[i].designator.value) {
        MatchNamed(spec, actuals, i);
      }
    }
  }

  /** The written test is not: the call `F (1)` matches `F (X : T)`, yet the written
      test rejects its only actual, and it accepts `Z => 1`, which names no formal. */
  lemma MatchParamAssocCounterexample()
    ensures var spec := SubprogramSpec(Tok(Identifier, "F"), [ParameterProfile(["X"], false)]);
      var positional := ParamAssoc(None, Tok(NumLiteral, "1"));
      var unknown := ParamAssoc(Some(Tok(Identifier, "Z")), Tok(NumLiteral, "1"));
      && IsMatchingParamList(spec, [positional])
      && !MatchParamAssoc(spec, positional)
      && MatchParamAssoc(spec, unknown)
      && !MatchParamAssocIntended(spec, unknown)
  {
  }

  // The profile `(X : T; Y : T := D)` of the call-matching examples.

  function ProfileXY(withDefault: bool): SubprogramSpec
  {
    SubprogramSpec(Tok(Identifier, "F"), [ParameterProfile(["X"], false), ParameterProfile(["Y"], withDefault)])
  }

  function Positional(value: Symbol): ParamAssoc
  {
    ParamAssoc(None, Tok(NumLiteral, value))
  }

  function Named(formal: Symbol, value: Symbol): ParamAssoc
  {
    ParamAssoc(Some(Tok(Identifier, formal)), Tok(NumLiteral, value))
  }

  /** With `(X : T; Y : T := D)`: `(1)` matches, `(1, 2, 3)` has too many actuals, and
      `(Y => 2)` supplies no actual for the mandatory `X`. */
  lemma CallMatchingExamples()
    ensures IsMatchingParamList(ProfileXY(true), [Positional("1")])
    ensures MatchParamList(ProfileXY(true), [Positional("1")]) == [ParamMatch(true, false)]
    ensures !IsMatchingParamList(ProfileXY(true), [Positional("1"), Positional("2"), Positional("3")])
    ensures MatchParamList(ProfileXY(true), [Named("Y", "2")]) == [ParamMatch(true, true)]
    ensures !IsMatchingParamList(ProfileXY(true), [Named("Y", "2")])
  {
    var spec := ProfileXY(true);
    var x, y := SingleParameter("X", spec.params[0]), SingleParameter("Y", spec.params[1]);
    assert GroupParams(spec.params[0]) == [x];
    assert GroupParams(spec.params[1]) == [y];
    assert TypedParamList(spec) == [x, y];
    assert Filter(IsRequired, [y]) == [];
    assert Filter(IsRequired, [x, y]) == [x];
    assert NbMinParams(spec) == 1 && NbMaxParams(spec) == 2;
    assert MatchParamList(spec, [Positional("1")]) == [ParamMatch(true, false)];
    assert Filter(IsMandatoryMatch, [ParamMatch(true, false)]) == [ParamMatch(true, false)];
    assert FindFormal([x, y], "Y") == Some(1);
    assert MatchParamList(spec, [Named("Y", "2")]) == [ParamMatch(true, true)];
    assert Filter(IsMandatoryMatch, [ParamMatch(true, true)]) == [];
  }

  /** Matching counts mandatory formals rather than covering them: with `(X : T; Y : T)`,
      the call `(X => 1, X => 2)` is judged a match although nothing is passed for `Y`. */
  lemma CountNotCoverage()
    ensures IsMatchingParamList(ProfileXY(false), [Named("X", "1"), Named("X", "2")])
    ensures forall i :: 0 <= i < 2 ==>
      var a := [Named("X", "1"), Named("X", "2")][i]; a.designator.Some? && a.designator.value.tok != "Y"
  {
  }
}
