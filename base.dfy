/**
 * Value types shared by every module of the model, and the two sequence
 * combinators (`filter` and `take_while`) that the node properties are
 * written with.
 */
module Base {

  /** An interned identifier. Ada's case folding is already applied, so two
      identifiers denote the same name exactly when their symbols are equal. */
  type Symbol = string

  datatype Option<+T> = None | Some(value: T)

  /** Failures a property evaluation can raise. */
  datatype Error =
    | UnboundName       // no entry anywhere on the environment chain
    | AmbiguousName     // more than one entry where one was required
    | AbstractProperty  // an abstract property called on a node kind that does not define it
    | NullNode          // a property called on a null node

  datatype Result<+T> = Success(value: T) | Failure(error: Error)

  /** `s.at(i)`: the element at position `i`, or nothing when `i` is out of range. */
  function At<T>(s: seq<T>, i: nat): (r: Option<T>)
    ensures r.Some? <==> i < |s|
  {
    if i < |s| then Some(s[i]) else None
  }

  /** The elements of `s` that satisfy `p`, in their original order. */
  function Filter<T>(p: T -> bool, s: seq<T>): (r: seq<T>)
    ensures |r| <= |s|
    ensures forall i :: 0 <= i < |r| ==> p(r[i])
  {
    if s == [] then [] else (if p(s[0]) then [s[0]] else []) + Filter(p, s[1..])
  }

  /** The longest prefix of `s` whose elements all satisfy `p`. */
  function TakeWhile<T>(p: T -> bool, s: seq<T>): (r: seq<T>)
    ensures |r| <= |s| && r == s[..|r|]
    ensures forall i :: 0 <= i < |r| ==> p(r[i])
    ensures |r| < |s| ==> !p(s[|r|])
  {
    if s == [] || !p(s[0]) then [] else [s[0]] + TakeWhile(p, s[1..])
  }

  /** Filtering distributes over concatenation: it keeps the relative order. */
  lemma {:induction false} FilterConcat<T>(p: T -> bool, a: seq<T>, b: seq<T>)
    ensures Filter(p, a + b) == Filter(p, a) + Filter(p, b)
  {
    if a != [] {
      assert (a + b)[0] == a[0] && (a + b)[1..] == a[1..] + b;
      FilterConcat(p, a[1..], b);
    } else {
      assert a + b == b;
    }
  }

  lemma {:induction false} FilterMember<T>(p: T -> bool, s: seq<T>, x: T)
    ensures x in Filter(p, s) <==> x in s && p(x)
  {
    if s != [] {
      FilterMember(p, s[1..], x);
      assert s == [s[0]] + s[1..];
    }
  }

  lemma {:induction false} FilterKeepsAll<T>(p: T -> bool, s: seq<T>)
    requires forall i :: 0 <= i < |s| ==> p(s[i])
    ensures Filter(p, s) == s
  {
    if s != [] {
      FilterKeepsAll(p, s[1..]);
    }
  }

  lemma {:induction false} FilterEmpty<T>(p: T -> bool, s: seq<T>)
    ensures Filter(p, s) == [] <==> forall i :: 0 <= i < |s| ==> !p(s[i])
  {
    if s != [] {
      FilterEmpty(p, s[1..]);
      if Filter(p, s) == [] {
        forall i | 0 <= i < |s| ensures !p(s[i]) {
          if i > 0 { assert s[i] == s[1..][i - 1]; }
        }
      }
    }
  }

  /** The head of a filtered sequence is the first element that satisfies `p`. */
  lemma {:induction false} FilterHead<T>(p: T -> bool, s: seq<T>, k: nat)
    requires k < |s| && p(s[k])
    requires forall j :: 0 <= j < k ==> !p(s[j])
    ensures Filter(p, s) != [] && Filter(p, s)[0] == s[k]
  {
    if k > 0 {
      FilterHead(p, s[1..], k - 1);
    }
  }

  /** Two sequences that agree pointwise on their predicates filter to the same length. */
  lemma {:induction false} FilterLengthPointwise<A, B>(p: A -> bool, s: seq<A>, q: B -> bool, t: seq<B>)
    requires |s| == |t|
    requires forall i :: 0 <= i < |s| ==> p(s[i]) == q(t[i])
    ensures |Filter(p, s)| == |Filter(q, t)|
  {
    if s != [] {
      FilterLengthPointwise(p, s[1..], q, t[1..]);
    }
  }

  /** A non-empty `take_while` is exactly a sequence whose head satisfies `p`. */
  lemma TakeWhileNonEmpty<T>(p: T -> bool, s: seq<T>)
    ensures |TakeWhile(p, s)| != 0 <==> |s| != 0 && p(s[0])
  {
  }
}
