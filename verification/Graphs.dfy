/** Paths, transitive closure and acyclicity of a relation, for the memory models. */
module Graphs {

  ghost predicate IsPath<T(!new)>(e: (T, T) -> bool, p: seq<T>) {
    |p| >= 2 && forall k :: 0 <= k < |p| - 1 ==> e(p[k], p[k + 1])
  }

  ghost predicate PathFromTo<T(!new)>(e: (T, T) -> bool, p: seq<T>, a: T, b: T) {
    IsPath(e, p) && p[0] == a && p[|p| - 1] == b
  }

  /** The transitive closure of `e`. */
  ghost predicate Tc<T(!new)>(e: (T, T) -> bool, a: T, b: T) {
    exists p :: PathFromTo(e, p, a, b)
  }

  ghost predicate Acyclic<T(!new)>(e: (T, T) -> bool) {
    forall a :: !Tc(e, a, a)
  }

  lemma TcStep<T(!new)>(e: (T, T) -> bool, a: T, b: T)
    requires e(a, b)
    ensures Tc(e, a, b)
  {
    assert PathFromTo(e, [a, b], a, b);
  }

  lemma TcTrans<T(!new)>(e: (T, T) -> bool, a: T, b: T, c: T)
    requires Tc(e, a, b) && Tc(e, b, c)
    ensures Tc(e, a, c)
  {
    var p :| PathFromTo(e, p, a, b);
    var q :| PathFromTo(e, q, b, c);
    var r := p + q[1..];
    forall k | 0 <= k < |r| - 1
      ensures e(r[k], r[k + 1])
    {
      if k >= |p| - 1 {
        assert r[k] == q[k - (|p| - 1)] && r[k + 1] == q[k + 1 - (|p| - 1)];
      }
    }
    assert PathFromTo(e, r, a, c);
  }

  /** A map that sends edges to paths sends paths to paths. */
  lemma {:induction false} PathMaps<S(!new), T(!new)>(e: (S, S) -> bool, d: (T, T) -> bool, f: S -> T, p: seq<S>)
    requires forall a, b :: e(a, b) ==> Tc(d, f(a), f(b))
    requires IsPath(e, p)
    ensures Tc(d, f(p[0]), f(p[|p| - 1]))
    decreases |p|
  {
    var n := |p| - 1;
    assert e(p[n - 1], p[n]);
    if n > 1 {
      var q := p[..n];
      assert IsPath(e, q);
      PathMaps(e, d, f, q);
      TcTrans(d, f(p[0]), f(p[n - 1]), f(p[n]));
    }
  }

  lemma AcyclicMaps<S(!new), T(!new)>(e: (S, S) -> bool, d: (T, T) -> bool, f: S -> T)
    requires forall a, b :: e(a, b) ==> Tc(d, f(a), f(b))
    requires Acyclic(d)
    ensures Acyclic(e)
  {
    forall a
      ensures !Tc(e, a, a)
    {
      if Tc(e, a, a) {
        var p :| PathFromTo(e, p, a, a);
        PathMaps(e, d, f, p);
      }
    }
  }

  lemma {:induction false} PathClimbs<T(!new)>(e: (T, T) -> bool, rank: T -> int, p: seq<T>)
    requires forall a, b :: e(a, b) ==> rank(a) < rank(b)
    requires IsPath(e, p)
    ensures rank(p[0]) < rank(p[|p| - 1])
    decreases |p|
  {
    var n := |p| - 1;
    assert e(p[n - 1], p[n]);
    if n > 1 {
      assert IsPath(e, p[..n]);
      PathClimbs(e, rank, p[..n]);
    }
  }

  /** A relation that always climbs has no cycle. */
  lemma RankedAcyclic<T(!new)>(e: (T, T) -> bool, rank: T -> int)
    requires forall a, b :: e(a, b) ==> rank(a) < rank(b)
    ensures Acyclic(e)
  {
    forall a
      ensures !Tc(e, a, a)
    {
      if Tc(e, a, a) {
        var p :| PathFromTo(e, p, a, a);
        PathClimbs(e, rank, p);
      }
    }
  }

  // ---- contracting cycles ----

  /** Every edge of `e` is an `inner` edge or runs between two nodes that `d` connects; `inner`
      is a strict partial order, and where it joins two nodes `d` connects them too. */
  ghost predicate Contracts<S(!new), T(!new)>(e: (S, S) -> bool, inner: (S, S) -> bool, node: S -> bool,
                                              d: (T, T) -> bool, f: S -> T)
  {
    && (forall a, b :: e(a, b) ==> inner(a, b) || (node(a) && node(b) && Tc(d, f(a), f(b))))
    && (forall a, b, c :: inner(a, b) && inner(b, c) ==> inner(a, c))
    && (forall a :: !inner(a, a))
    && (forall a, b :: inner(a, b) && node(a) && node(b) ==> Tc(d, f(a), f(b)))
  }

  /** A path enters the nodes at `c`, runs along `d`, and leaves them at `z`. */
  ghost predicate Through<S(!new), T(!new)>(inner: (S, S) -> bool, node: S -> bool, d: (T, T) -> bool, f: S -> T,
                                            a: S, c: S, z: S, b: S)
  {
    && node(c) && node(z) && Tc(d, f(c), f(z))
    && (a == c || inner(a, c)) && (z == b || inner(z, b))
  }

  lemma {:induction false} ContractPath<S(!new), T(!new)>(e: (S, S) -> bool, inner: (S, S) -> bool, node: S -> bool,
                                                          d: (T, T) -> bool, f: S -> T, p: seq<S>)
    returns (direct: bool, c: S, z: S)
    requires Contracts(e, inner, node, d, f) && IsPath(e, p)
    ensures direct ==> inner(p[0], p[|p| - 1])
    ensures !direct ==> Through(inner, node, d, f, p[0], c, z, p[|p| - 1])
    decreases |p|
  {
    var n := |p| - 1;
    assert e(p[n - 1], p[n]);
    if n == 1 {
      direct, c, z := inner(p[0], p[1]), p[0], p[1];
    } else {
      assert IsPath(e, p[..n]);
      direct, c, z := ContractPath(e, inner, node, d, f, p[..n]);
      if !inner(p[n - 1], p[n]) {
        if direct {
          c := p[n - 1];
        } else {
          if z != p[n - 1] {
            TcTrans(d, f(c), f(z), f(p[n - 1]));
          }
          TcTrans(d, f(c), f(p[n - 1]), f(p[n]));
        }
        direct, z := false, p[n];
      }
    }
  }

  /** A cycle of `e` contracts to a cycle of `d`. */
  lemma ContractedAcyclic<S(!new), T(!new)>(e: (S, S) -> bool, inner: (S, S) -> bool, node: S -> bool,
                                                               d: (T, T) -> bool, f: S -> T)
    requires Contracts(e, inner, node, d, f) && Acyclic(d)
    ensures Acyclic(e)
  {
    forall a
      ensures !Tc(e, a, a)
    {
      if Tc(e, a, a) {
        var p :| PathFromTo(e, p, a, a);
        var direct, c, z := ContractPath(e, inner, node, d, f, p);
        if !direct && c != z {
          assert inner(z, c);
          TcTrans(d, f(c), f(z), f(c));
        }
      }
    }
  }
}
