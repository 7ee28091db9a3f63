/**
 * `DependencyObjectExtensions`: searches of the visual tree. A tree is an
 * `Element` with its children in order; an element inside it is named by its
 * path, the child indices that lead to it from the root, so the parent of a
 * non-empty path is that path without its last index and the root has none.
 * The predicate structs that select a match are the constructors of `Query`.
 */
module VisualTree {
  import opened Wrappers

  /** A runtime type, identified by number. */
  type TypeId = nat

  datatype Element = Element(
    runtimeType: TypeId,
    isFrameworkElement: bool,
    name: Option<string>,      // FrameworkElement.Name; None is null
    children: seq<Element>)

  type Path = seq<nat>

  predicate ValidPath(e: Element, p: Path)
    decreases |p|
  {
    |p| == 0 || (p[0] < |e.children| && ValidPath(e.children[p[0]], p[1..]))
  }

  function At(e: Element, p: Path): Element
    requires ValidPath(e, p)
    decreases |p|
  {
    if |p| == 0 then e else At(e.children[p[0]], p[1..])
  }

  /**
   * The match a search applies: `child is T && predicate.Match(child)`, where the
   * type parameter T is the set of runtime types assignable to it.
   */
  datatype Query =
    | ByName(wanted: string)                              // PredicateByName, T = FrameworkElement
    | ByAny(types: set<TypeId>)                           // PredicateByAny<T>
    | ByType(exact: TypeId)                               // PredicateByType, T = DependencyObject
    | ByFunc(types: set<TypeId>, test: Element -> bool)   // PredicateByFunc<T> and <T, TState>

  predicate Matches(q: Query, e: Element) {
    match q
    case ByName(n) => e.isFrameworkElement && e.name == Some(n)
    case ByAny(ts) => e.runtimeType in ts
    case ByType(t) => e.runtimeType == t
    case ByFunc(ts, f) => e.runtimeType in ts && f(e)
  }

  /** PredicateByAny accepts every element; only the type test of T decides. */
  lemma PredicateByAnyAlwaysMatches(ts: set<TypeId>, e: Element)
    ensures Matches(ByAny(ts), e) <==> e.runtimeType in ts
  {
  }

  /** PredicateByType compares the exact runtime type: an element of a subtype does not match. */
  lemma PredicateByTypeIsExact(t: TypeId, sub: TypeId, e: Element)
    requires sub != t && e.runtimeType == sub
    ensures !Matches(ByType(t), e)
    ensures Matches(ByAny({t, sub}), e)
  {
  }

  /** PredicateByName never matches an element whose Name is null. */
  lemma PredicateByNameNeedsName(n: string, e: Element)
    requires e.name.None?
    ensures !Matches(ByName(n), e)
  {
  }

  predicate MatchesAt(root: Element, p: Path, q: Query) {
    ValidPath(root, p) && Matches(q, At(root, p))
  }

  /** The first path of `ps` whose element matches. */
  function FirstMatch(root: Element, ps: seq<Path>, q: Query): Option<Path>
  {
    if ps == [] then None
    else if MatchesAt(root, ps[0], q) then Some(ps[0])
    else FirstMatch(root, ps[1..], q)
  }

  /** None exactly when no path matches. */
  lemma {:induction false} FirstMatchNoneIff(root: Element, ps: seq<Path>, q: Query)
    ensures FirstMatch(root, ps, q).None? <==> forall k :: 0 <= k < |ps| ==> !MatchesAt(root, ps[k], q)
  {
    if ps != [] && !MatchesAt(root, ps[0], q) {
      FirstMatchNoneIff(root, ps[1..], q);
      assert forall k :: 1 <= k < |ps| ==> ps[k] == ps[1..][k - 1];
    }
  }

  /** Otherwise the answer is the path at some index k that matches, with no match before k. */
  lemma {:induction false} FirstMatchIndex(root: Element, ps: seq<Path>, q: Query) returns (k: nat)
    requires FirstMatch(root, ps, q).Some?
    ensures k < |ps| && ps[k] == FirstMatch(root, ps, q).value && MatchesAt(root, ps[k], q)
    ensures forall j :: 0 <= j < k ==> !MatchesAt(root, ps[j], q)
  {
    if MatchesAt(root, ps[0], q) {
      k := 0;
    } else {
      var k' := FirstMatchIndex(root, ps[1..], q);
      k := k' + 1;
      assert forall j :: 1 <= j < k ==> ps[j] == ps[1..][j - 1];
    }
  }

  lemma {:induction false} FirstMatchAppend(root: Element, a: seq<Path>, b: seq<Path>, q: Query)
    ensures FirstMatch(root, a + b, q) ==
            if FirstMatch(root, a, q).Some? then FirstMatch(root, a, q) else FirstMatch(root, b, q)
  {
    if a == [] {
      assert a + b == b;
    } else {
      assert (a + b)[0] == a[0];
      assert (a + b)[1..] == a[1..] + b;
      FirstMatchAppend(root, a[1..], b, q);
    }
  }

  lemma FirstMatchCons(root: Element, x: Path, rest: seq<Path>, q: Query)
    ensures FirstMatch(root, [x] + rest, q) == if MatchesAt(root, x, q) then Some(x) else FirstMatch(root, rest, q)
  {
    assert ([x] + rest)[0] == x && ([x] + rest)[1..] == rest;
  }

  /** The paths `ps` of a child, as paths from its parent through child index i. */
  function Under(i: nat, ps: seq<Path>): (r: seq<Path>)
    ensures |r| == |ps|
    ensures forall k :: 0 <= k < |r| ==> r[k] == [i] + ps[k]
  {
    seq(|ps|, k requires 0 <= k < |ps| => [i] + ps[k])
  }

  lemma PathThroughChild(root: Element, i: nat, p: Path)
    requires i < |root.children|
    ensures ValidPath(root, [i] + p) <==> ValidPath(root.children[i], p)
    ensures ValidPath(root, [i] + p) ==> At(root, [i] + p) == At(root.children[i], p)
  {
    assert ([i] + p)[0] == i;
    assert ([i] + p)[1..] == p;
  }

  /** Searching a child's paths from the parent finds what searching the child finds. */
  lemma {:induction false} FirstMatchUnder(root: Element, i: nat, ps: seq<Path>, q: Query)
    requires i < |root.children|
    ensures FirstMatch(root, Under(i, ps), q) ==
            match FirstMatch(root.children[i], ps, q)
            case None => None
            case Some(p) => Some([i] + p)
  {
    if ps != [] {
      PathThroughChild(root, i, ps[0]);
      assert Under(i, ps) == [[i] + ps[0]] + Under(i, ps[1..]);
      FirstMatchUnder(root, i, ps[1..], q);
      FirstMatchAppend(root, [[i] + ps[0]], Under(i, ps[1..]), q);
    }
  }

  /**
   * FindDescendants: every strict descendant, as a path from `e`, in the order the
   * iterator yields them (each child, then that child's descendants, left to right).
   */
  function FindDescendants(e: Element): (r: seq<Path>)
    ensures forall k :: 0 <= k < |r| ==> |r[k]| > 0 && ValidPath(e, r[k])
    decreases e, 1
  {
    ChildBlocks(e, |e.children|)
  }

  /** What the first n children contribute to FindDescendants. */
  function ChildBlocks(e: Element, n: nat): (r: seq<Path>)
    requires n <= |e.children|
    ensures forall k :: 0 <= k < |r| ==> |r[k]| > 0 && r[k][0] < n && ValidPath(e, r[k])
    decreases e, 0, n
  {
    if n == 0 then []
    else
      var child := e.children[n - 1];
      var below := FindDescendants(child);
      forall k | 0 <= k < |below|
        ensures ValidPath(e, [n - 1] + below[k])
      {
        PathThroughChild(e, n - 1, below[k]);
      }
      ChildBlocks(e, n - 1) + ([[n - 1]] + Under(n - 1, below))
  }

  /** The block of child i: the child, then its descendants. */
  lemma ChildBlocksStep(e: Element, n: nat)
    requires 0 < n <= |e.children|
    ensures ChildBlocks(e, n) ==
            ChildBlocks(e, n - 1) + ([[n - 1]] + Under(n - 1, FindDescendants(e.children[n - 1])))
  {
  }

  /** Once the first i children's blocks hold a match, later blocks do not change it. */
  lemma {:induction false} FirstMatchStable(e: Element, i: nat, n: nat, q: Query)
    requires i <= n <= |e.children|
    requires FirstMatch(e, ChildBlocks(e, i), q).Some?
    ensures FirstMatch(e, ChildBlocks(e, n), q) == FirstMatch(e, ChildBlocks(e, i), q)
    decreases n - i
  {
    if i < n {
      FirstMatchStable(e, i, n - 1, q);
      ChildBlocksStep(e, n);
      FirstMatchAppend(e, ChildBlocks(e, n - 1), [[n - 1]] + Under(n - 1, FindDescendants(e.children[n - 1])), q);
    }
  }

  /** The first match in child i's block: the child itself, else the first match below it. */
  lemma BlockFirstMatch(e: Element, i: nat, q: Query)
    requires i < |e.children|
    ensures FirstMatch(e, [[i]] + Under(i, FindDescendants(e.children[i])), q) ==
            if Matches(q, e.children[i]) then Some([i])
            else match FirstMatch(e.children[i], FindDescendants(e.children[i]), q)
                 case None => None
                 case Some(p) => Some([i] + p)
  {
    var below := FindDescendants(e.children[i]);
    FirstMatchAppend(e, [[i]], Under(i, below), q);
    PathThroughChild(e, i, []);
    assert [i] + [] == [i];
    FirstMatchUnder(e, i, below, q);
  }

  /** While the first i blocks hold no match, the first match of i + 1 blocks is that of block i. */
  lemma NextBlockFirstMatch(e: Element, i: nat, q: Query)
    requires i < |e.children|
    requires FirstMatch(e, ChildBlocks(e, i), q).None?
    ensures FirstMatch(e, ChildBlocks(e, i + 1), q) ==
            if Matches(q, e.children[i]) then Some([i])
            else match FirstMatch(e.children[i], FindDescendants(e.children[i]), q)
                 case None => None
                 case Some(p) => Some([i] + p)
  {
    ChildBlocksStep(e, i + 1);
    FirstMatchAppend(e, ChildBlocks(e, i), [[i]] + Under(i, FindDescendants(e.children[i])), q);
    BlockFirstMatch(e, i, q);
  }

  /**
   * FindDescendant: the depth-first search that tries each child, then that
   * child's subtree, before the next child. It answers the first match of
   * FindDescendants.
   */
  method FindDescendant(e: Element, q: Query) returns (r: Option<Path>)
    ensures r == FirstMatch(e, FindDescendants(e), q)
    decreases e
  {
    for i := 0 to |e.children|
      invariant FirstMatch(e, ChildBlocks(e, i), q).None?
    {
      var child := e.children[i];
      NextBlockFirstMatch(e, i, q);
      if Matches(q, child) {
        FirstMatchStable(e, i + 1, |e.children|, q);
        return Some([i]);
      }
      var d := FindDescendant(child, q);
      if d.Some? {
        FirstMatchStable(e, i + 1, |e.children|, q);
        return Some([i] + d.value);
      }
    }
    return None;
  }

  /** The ...OrSelf variants: the start element when it matches, else FindDescendant. */
  method FindDescendantOrSelf(e: Element, q: Query) returns (r: Option<Path>)
    ensures r == FirstMatch(e, [[]] + FindDescendants(e), q)
  {
    FirstMatchAppend(e, [[]], FindDescendants(e), q);
    assert At(e, []) == e;
    if Matches(q, e) {
      return Some([]);
    }
    r := FindDescendant(e, q);
  }

  /**
   * Pre-order is lexicographic order on paths: a node comes before its
   * descendants, and a smaller child index comes first.
   */
  predicate LexLess(p: Path, q: Path)
    decreases |p|
  {
    |q| > 0 && (|p| == 0 || p[0] < q[0] || (p[0] == q[0] && LexLess(p[1..], q[1..])))
  }

  lemma {:induction false} LexLessIrreflexive(p: Path)
    ensures !LexLess(p, p)
    decreases |p|
  {
    if |p| > 0 {
      LexLessIrreflexive(p[1..]);
    }
  }

  lemma {:induction false} LexLessAsymmetric(p: Path, q: Path)
    requires LexLess(p, q)
    ensures !LexLess(q, p)
    decreases |p|
  {
    if |p| > 0 && p[0] == q[0] {
      LexLessAsymmetric(p[1..], q[1..]);
    }
  }

  predicate PreOrdered(ps: seq<Path>) {
    forall i, j :: 0 <= i < j < |ps| ==> LexLess(ps[i], ps[j])
  }

  lemma ConcatPreOrdered(a: seq<Path>, b: seq<Path>)
    requires PreOrdered(a) && PreOrdered(b)
    requires forall x, y :: 0 <= x < |a| && 0 <= y < |b| ==> LexLess(a[x], b[y])
    ensures PreOrdered(a + b)
  {
    forall i, j | 0 <= i < j < |a + b|
      ensures LexLess((a + b)[i], (a + b)[j])
    {
      if j < |a| {
        assert (a + b)[i] == a[i] && (a + b)[j] == a[j];
      } else if i < |a| {
        assert (a + b)[i] == a[i] && (a + b)[j] == b[j - |a|];
      } else {
        assert (a + b)[i] == b[i - |a|] && (a + b)[j] == b[j - |a|];
      }
    }
  }

  /** A child followed by its own pre-ordered descendants, all under index i, is pre-ordered. */
  lemma BlockPreOrdered(i: nat, below: seq<Path>)
    requires PreOrdered(below)
    requires forall k :: 0 <= k < |below| ==> |below[k]| > 0
    ensures PreOrdered([[i]] + Under(i, below))
  {
    var u := Under(i, below);
    forall x, y | 0 <= x < y < |u|
      ensures LexLess(u[x], u[y])
    {
      assert u[x][1..] == below[x] && u[y][1..] == below[y];
    }
    forall y | 0 <= y < |u|
      ensures LexLess([i], u[y])
    {
      assert [i][1..] == [] && u[y][1..] == below[y];
    }
    ConcatPreOrdered([[i]], u);
  }

  /** Paths through children before i come before child i's block. */
  lemma BlocksInChildOrder(a: seq<Path>, i: nat, below: seq<Path>)
    requires forall k :: 0 <= k < |a| ==> |a[k]| > 0 && a[k][0] < i
    ensures forall x, y :: 0 <= x < |a| && 0 <= y < |[[i]] + Under(i, below)| ==> LexLess(a[x], ([[i]] + Under(i, below))[y])
  {
    var b := [[i]] + Under(i, below);
    forall x, y | 0 <= x < |a| && 0 <= y < |b|
      ensures LexLess(a[x], b[y])
    {
      assert y == 0 || b[y] == Under(i, below)[y - 1];
    }
  }

  /** FindDescendants yields the descendants in pre-order. */
  lemma DescendantsPreOrdered(e: Element)
    ensures PreOrdered(FindDescendants(e))
    decreases e, 1
  {
    BlocksPreOrdered(e, |e.children|);
  }

  lemma BlocksPreOrdered(e: Element, n: nat)
    requires n <= |e.children|
    ensures PreOrdered(ChildBlocks(e, n))
    decreases e, 0, n
  {
    if n > 0 {
      var below := FindDescendants(e.children[n - 1]);
      BlocksPreOrdered(e, n - 1);
      DescendantsPreOrdered(e.children[n - 1]);
      BlockPreOrdered(n - 1, below);
      BlocksInChildOrder(ChildBlocks(e, n - 1), n - 1, below);
      ConcatPreOrdered(ChildBlocks(e, n - 1), [[n - 1]] + Under(n - 1, below));
    }
  }

  /** Every strict descendant is yielded by FindDescendants. */
  lemma DescendantsComplete(e: Element, p: Path)
    requires ValidPath(e, p) && |p| > 0
    ensures p in FindDescendants(e)
    decreases e, 1
  {
    BlocksComplete(e, |e.children|, p);
  }

  lemma BlocksComplete(e: Element, n: nat, p: Path)
    requires n <= |e.children|
    requires ValidPath(e, p) && |p| > 0 && p[0] < n
    ensures p in ChildBlocks(e, n)
    decreases e, 0, n
  {
    var below := FindDescendants(e.children[n - 1]);
    ChildBlocksStep(e, n);
    if p[0] == n - 1 {
      if |p| == 1 {
        assert p == [n - 1];
      } else {
        DescendantsComplete(e.children[n - 1], p[1..]);
        var k :| 0 <= k < |below| && below[k] == p[1..];
        assert Under(n - 1, below)[k] == p;
      }
    } else {
      BlocksComplete(e, n - 1, p);
    }
  }

  /** ... and only once. */
  lemma DescendantsDistinct(e: Element)
    ensures forall i, j :: 0 <= i < j < |FindDescendants(e)| ==> FindDescendants(e)[i] != FindDescendants(e)[j]
  {
    var ps := FindDescendants(e);
    DescendantsPreOrdered(e);
    forall i, j | 0 <= i < j < |ps|
      ensures ps[i] != ps[j]
    {
      LexLessIrreflexive(ps[i]);
    }
  }

  /** FindDescendant answers null exactly when no strict descendant matches. */
  lemma FindDescendantNoneIff(e: Element, q: Query)
    ensures FirstMatch(e, FindDescendants(e), q).None? <==>
            forall p :: ValidPath(e, p) && |p| > 0 ==> !Matches(q, At(e, p))
  {
    var ps := FindDescendants(e);
    FirstMatchNoneIff(e, ps, q);
    if FirstMatch(e, ps, q).None? {
      forall p | ValidPath(e, p) && |p| > 0
        ensures !Matches(q, At(e, p))
      {
        DescendantsComplete(e, p);
        var j :| 0 <= j < |ps| && ps[j] == p;
        assert !MatchesAt(e, ps[j], q);
      }
    }
  }

  /**
   * Otherwise its answer is a matching strict descendant before which, in
   * pre-order, no descendant matches.
   */
  lemma FindDescendantIsFirstInPreOrder(e: Element, q: Query, r: Path)
    requires FirstMatch(e, FindDescendants(e), q) == Some(r)
    ensures |r| > 0 && MatchesAt(e, r, q)
    ensures forall p :: ValidPath(e, p) && |p| > 0 && LexLess(p, r) ==> !Matches(q, At(e, p))
  {
    var ps := FindDescendants(e);
    var k := FirstMatchIndex(e, ps, q);
    DescendantsPreOrdered(e);
    forall p | ValidPath(e, p) && |p| > 0 && LexLess(p, r)
      ensures !Matches(q, At(e, p))
    {
      DescendantsComplete(e, p);
      var j :| 0 <= j < |ps| && ps[j] == p;
      if j == k {
        LexLessIrreflexive(p);
      } else if j > k {
        assert LexLess(ps[k], ps[j]);
        LexLessAsymmetric(p, r);
      } else {
        assert !MatchesAt(e, ps[j], q);
      }
    }
  }

  /** FindAscendants: the parent chain, nearest first, ending at the root. */
  function Ancestors(p: Path): (r: seq<Path>)
    ensures |r| == |p|
    ensures forall k :: 0 <= k < |r| ==> r[k] == p[..|p| - 1 - k]
    decreases |p|
  {
    if |p| == 0 then []
    else
      var parent := p[..|p| - 1];
      var rest := Ancestors(parent);
      assert forall k :: 0 <= k < |rest| ==> rest[k] == p[..|p| - 1 - (k + 1)];
      [parent] + rest
  }

  lemma AncestorsStep(p: Path)
    requires |p| > 0
    ensures Ancestors(p) == [p[..|p| - 1]] + Ancestors(p[..|p| - 1])
  {
  }

  lemma {:induction false} ValidPrefix(root: Element, p: Path, k: nat)
    requires ValidPath(root, p) && k <= |p|
    ensures ValidPath(root, p[..k])
    decreases |p|
  {
    if k > 0 {
      assert p[..k][1..] == p[1..][..k - 1];
      ValidPrefix(root.children[p[0]], p[1..], k - 1);
    }
  }

  method FindAscendants(element: Path) returns (chain: seq<Path>)
    ensures chain == Ancestors(element)
  {
    chain := [];
    var current := element;
    while true
      invariant |current| <= |element| && current == element[..|current|]
      invariant chain == Ancestors(element)[..|element| - |current|]
      decreases |current|
    {
      if |current| == 0 {
        // GetParent answers null at the root
        return;
      }
      var parent := current[..|current| - 1];
      chain := chain + [parent];
      current := parent;
    }
  }

  method FindAscendant(root: Element, element: Path, q: Query) returns (r: Option<Path>)
    requires ValidPath(root, element)
    ensures r == FirstMatch(root, Ancestors(element), q)
  {
    var current := element;
    while true
      invariant ValidPath(root, current)
      invariant FirstMatch(root, Ancestors(element), q) == FirstMatch(root, Ancestors(current), q)
      decreases |current|
    {
      if |current| == 0 {
        return None;
      }
      var parent := current[..|current| - 1];
      AncestorsStep(current);
      FirstMatchCons(root, parent, Ancestors(parent), q);
      ValidPrefix(root, current, |parent|);
      if Matches(q, At(root, parent)) {
        return Some(parent);
      }
      current := parent;
    }
  }

  method FindAscendantOrSelf(root: Element, element: Path, q: Query) returns (r: Option<Path>)
    requires ValidPath(root, element)
    ensures r == FirstMatch(root, [element] + Ancestors(element), q)
  {
    FirstMatchAppend(root, [element], Ancestors(element), q);
    if Matches(q, At(root, element)) {
      return Some(element);
    }
    r := FindAscendant(root, element, q);
  }

  /** FindAscendant answers null exactly when no strict ancestor of the element matches. */
  lemma FindAscendantNoneIff(root: Element, element: Path, q: Query)
    ensures FirstMatch(root, Ancestors(element), q).None? <==>
            forall k :: 0 <= k < |element| ==> !MatchesAt(root, element[..k], q)
  {
    var chain := Ancestors(element);
    var n := |element|;
    FirstMatchNoneIff(root, chain, q);
    forall k | 0 <= k < n
      ensures !MatchesAt(root, chain[n - 1 - k], q) <==> !MatchesAt(root, element[..k], q)
    {
      assert chain[n - 1 - k] == element[..k];
    }
  }

  /**
   * Otherwise its answer is a matching strict ancestor, and no ancestor between
   * it and the element matches: the nearest one.
   */
  lemma FindAscendantIsNearest(root: Element, element: Path, q: Query, r: Path)
    requires FirstMatch(root, Ancestors(element), q) == Some(r)
    ensures |r| < |element| && r == element[..|r|] && MatchesAt(root, r, q)
    ensures forall k :: |r| < k < |element| ==> !MatchesAt(root, element[..k], q)
  {
    var chain := Ancestors(element);
    var n := |element|;
    var i := FirstMatchIndex(root, chain, q);
    forall k | |r| < k < n
      ensures !MatchesAt(root, element[..k], q)
    {
      assert chain[n - 1 - k] == element[..k];
      assert !MatchesAt(root, chain[n - 1 - k], q);
    }
  }
}
