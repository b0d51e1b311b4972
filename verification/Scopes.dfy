/**
 The scope relation of delegation chains: a string order, checked between neighbours and meant for
 the whole chain.
 */
module Scopes {

  predicate StartsWith(s: string, prefix: string) {
    |prefix| <= |s| && s[..|prefix|] == prefix
  }

  predicate EndsWith(s: string, suffix: string) {
    |suffix| <= |s| && s[|s| - |suffix|..] == suffix
  }

  /** scope_is_narrower_or_equal */
  predicate Narrows(parent: string, child: string) {
    if parent == child then true
    else if EndsWith(parent, ":*") then
      var prefix := parent[..|parent| - 2];
      child == prefix || StartsWith(child, prefix + ":")
    else StartsWith(child, parent + ":")
  }

  /** The namespace a scope names: itself, without a final wildcard. */
  function Namespace(scope: string): string {
    if EndsWith(scope, ":*") then scope[..|scope| - 2] else scope
  }

  predicate Inside(namespace: string, scope: string) {
    scope == namespace || StartsWith(scope, namespace + ":")
  }

  lemma WildcardInside(scope: string)
    ensures Inside(Namespace(scope), scope)
  {
    if EndsWith(scope, ":*") {
      assert scope[|scope| - 2..][0] == ':';
      assert scope == Namespace(scope) + ":" + "*";
    }
  }

  /** A parent admits what is in its namespace: narrowing is membership, wildcard or not. */
  lemma NarrowsIsInside(parent: string, child: string)
    ensures Narrows(parent, child) <==> Inside(Namespace(parent), child)
  {
    WildcardInside(parent);
  }

  lemma InsideTransitive(a: string, b: string, c: string)
    requires Inside(a, b) && Inside(b, c)
    ensures Inside(a, c)
  {
    if b != a && c != b {
      assert c[..|b|] == b;
      assert c[..|a| + 1] == b[..|a| + 1];
    }
  }

  /** A namespace is inside every other it is a member of, unless it is cut by the wildcard. */
  lemma NamespaceInside(a: string, b: string)
    requires Inside(a, b) && (b == a ==> !EndsWith(a, ":*"))
    ensures Inside(a, Namespace(b))
  {
    if EndsWith(b, ":*") {
      var n := |b| - 2;
      assert b[|b| - 2..] == ":*";
      assert b[n] == ':' && b[n + 1] == '*';
      assert b[|a|] == (a + ":")[|a|] == ':';
      assert |a| <= n;
      if |a| == n {
        assert Namespace(b) == a;
      } else {
        assert Namespace(b)[..|a| + 1] == b[..|a| + 1];
      }
    }
  }

  lemma TwoWildcards(a: string)
    ensures EndsWith(a, ":*") && EndsWith(Namespace(a), ":*") ==> EndsWith(a, ":*:*")
  {
    if EndsWith(a, ":*") && EndsWith(Namespace(a), ":*") {
      assert a == Namespace(a) + ":*";
      assert Namespace(a) == Namespace(Namespace(a)) + ":*";
      assert a[|a| - 4..] == ":*:*";
    }
  }

  lemma NarrowsTransitive(a: string, b: string, c: string)
    requires !EndsWith(a, ":*:*")
    requires Narrows(a, b) && Narrows(b, c)
    ensures Narrows(a, c)
  {
    hide Inside;
    NarrowsIsInside(a, b);
    NarrowsIsInside(b, c);
    NarrowsIsInside(a, c);
    if a != b {
      TwoWildcards(a);
      NamespaceInside(Namespace(a), b);
      InsideTransitive(Namespace(a), Namespace(b), c);
    }
  }

  /** Cutting one wildcard at a time escapes from a scope that ends in two. */
  lemma TwoWildcardsEscape(a: string)
    requires EndsWith(a, ":*:*")
    ensures var b, c := a[..|a| - 2], a[..|a| - 4];
            Narrows(a, b) && Narrows(b, c) && !Narrows(a, c)
  {
    var n := |a|;
    assert a[n - 4..] == ":*:*";
    assert a[n - 2..] == ":*";
    assert a[..n - 2][n - 4..] == ":*";
    assert a[..n - 2][..n - 4] == a[..n - 4];
  }

  ghost predicate TransitiveFrom(a: string) {
    forall b, c :: Narrows(a, b) && Narrows(b, c) ==> Narrows(a, c)
  }

  /** What is narrower than a narrower scope is narrower, exactly unless the scope ends in ":*:*". */
  lemma TransitiveExactly(a: string)
    ensures TransitiveFrom(a) <==> !EndsWith(a, ":*:*")
  {
    hide Narrows;
    if EndsWith(a, ":*:*") {
      TwoWildcardsEscape(a);
    } else {
      forall b, c | Narrows(a, b) && Narrows(b, c)
        ensures Narrows(a, c)
      {
        NarrowsTransitive(a, b, c);
      }
    }
  }

  lemma LongerInside(a: string, b: string)
    requires Inside(a, b)
    ensures b == a || (|b| > |a| && b[|a|] == ':' && b[..|a|] == a)
  {
    if b != a {
      assert b[..|a| + 1] == a + ":";
    }
  }

  /** Two scopes narrow each other only if they differ by one final wildcard at most. */
  lemma MutualExactly(a: string, b: string)
    ensures Narrows(a, b) && Narrows(b, a) <==> a == b || a == b + ":*" || b == a + ":*"
  {
    WildcardIsNarrower(a);
    WildcardIsNarrower(b);
    if Narrows(a, b) && Narrows(b, a) {
      NarrowsIsInside(a, b);
      NarrowsIsInside(b, a);
      hide Narrows, Inside;
      var n, m := Namespace(a), Namespace(b);
      LongerInside(n, b);
      LongerInside(m, a);
      MutualNamespaces(a, b);
    }
  }

  lemma WildcardIsNarrower(a: string)
    ensures Narrows(a, a + ":*") && Narrows(a + ":*", a)
  {
    var w := a + ":*";
    assert w[|w| - 2..] == ":*" && w[..|w| - 2] == a;
    NarrowsIsInside(w, a);
    NarrowsIsInside(a, w);
    if EndsWith(a, ":*") {
      assert a == Namespace(a) + ":*";
      assert w[..|Namespace(a)| + 1] == Namespace(a) + ":";
    } else {
      assert w[..|a| + 1] == a + ":";
    }
  }

  lemma MutualNamespaces(a: string, b: string)
    requires var n := Namespace(a); b == n || (|b| > |n| && b[|n|] == ':' && b[..|n|] == n)
    requires var m := Namespace(b); a == m || (|a| > |m| && a[|m|] == ':' && a[..|m|] == m)
    ensures a == b || a == b + ":*" || b == a + ":*"
  {
    var n, m := Namespace(a), Namespace(b);
    assert a == n || a == n + ":*";
    assert b == m || b == m + ":*";
    assert (n + ":*")[|n| + 1] == '*' && (m + ":*")[|m| + 1] == '*';
  }

  // ------------------------------------------------------------------ chains of scopes

  /** Each scope narrows its left neighbour: what the verifier checks. */
  predicate PairwiseNarrow(scopes: seq<string>) {
    forall i | 1 <= i < |scopes| :: Narrows(scopes[i - 1], scopes[i])
  }

  /**
   From a scope that does not end in ":*:*", the check of neighbours makes every later scope of
   the chain a narrower one.
   */
  lemma {:induction false} ChainWideNarrow(scopes: seq<string>, i: nat, j: nat)
    requires PairwiseNarrow(scopes) && i <= j < |scopes| && !EndsWith(scopes[i], ":*:*")
    ensures Narrows(scopes[i], scopes[j])
    decreases j
  {
    hide Narrows;
    if i == j {
      NarrowsSelf(scopes[i]);
    } else {
      ChainWideNarrow(scopes, i, j - 1);
      assert Narrows(scopes[j - 1], scopes[j]);
      NarrowsTransitive(scopes[i], scopes[j - 1], scopes[j]);
    }
  }

  lemma NarrowsSelf(a: string)
    ensures Narrows(a, a)
  {}

  ghost predicate EndsNarrower(a: string, scopes: seq<string>) {
    scopes != [] && scopes[0] == a && PairwiseNarrow(scopes) ==> Narrows(a, scopes[|scopes| - 1])
  }

  /** Checking neighbours is enough for all chains from a scope exactly if it has no two wildcards. */
  lemma NeighboursEnoughExactly(a: string)
    ensures (forall scopes :: EndsNarrower(a, scopes)) <==> !EndsWith(a, ":*:*")
  {
    hide Narrows;
    if EndsWith(a, ":*:*") {
      TwoWildcardsEscape(a);
      var escape := [a, a[..|a| - 2], a[..|a| - 4]];
      assert PairwiseNarrow(escape);
      assert !EndsNarrower(a, escape);
    } else {
      forall scopes
        ensures EndsNarrower(a, scopes)
      {
        if scopes != [] && scopes[0] == a && PairwiseNarrow(scopes) {
          ChainWideNarrow(scopes, 0, |scopes| - 1);
        }
      }
    }
  }
}
