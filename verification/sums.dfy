/** Sums of integer tables over finite sets, independent of iteration order. */
module Sums {

  ghost function SumOver(keys: set<string>, f: map<string, int>): int
    requires keys <= f.Keys
  {
    if keys == {} then 0
    else
      var k :| k in keys;
      f[k] + SumOver(keys - {k}, f)
  }

  /** Any member may be taken out first. */
  lemma {:induction false} SumTakeOut(keys: set<string>, f: map<string, int>, x: string)
    requires keys <= f.Keys && x in keys
    ensures SumOver(keys, f) == f[x] + SumOver(keys - {x}, f)
    decreases |keys|
  {
    var k :| k in keys && SumOver(keys, f) == f[k] + SumOver(keys - {k}, f);
    if k != x {
      SumTakeOut(keys - {k}, f, x);
      SumTakeOut(keys - {x}, f, k);
      assert keys - {k} - {x} == keys - {x} - {k};
    }
  }

  lemma {:induction false} SumSame(keys: set<string>, f: map<string, int>, g: map<string, int>)
    requires keys <= f.Keys && keys <= g.Keys && forall k :: k in keys ==> f[k] == g[k]
    ensures SumOver(keys, f) == SumOver(keys, g)
    decreases |keys|
  {
    if keys != {} {
      var k :| k in keys && SumOver(keys, f) == f[k] + SumOver(keys - {k}, f);
      SumTakeOut(keys, g, k);
      SumSame(keys - {k}, f, g);
    }
  }

  /** Changing one entry changes the sum by the same amount. */
  lemma SumUpdate(keys: set<string>, f: map<string, int>, x: string, v: int)
    requires keys <= f.Keys && x in keys
    ensures SumOver(keys, f[x := v]) == SumOver(keys, f) - f[x] + v
  {
    SumTakeOut(keys, f, x);
    SumTakeOut(keys, f[x := v], x);
    SumSame(keys - {x}, f, f[x := v]);
  }

  /** Two tables that differ at one key at most. */
  lemma SumDiffersAt(keys: set<string>, f: map<string, int>, g: map<string, int>, x: string)
    requires keys <= f.Keys && keys <= g.Keys && x in keys
    requires forall k :: k in keys && k != x ==> f[k] == g[k]
    ensures SumOver(keys, g) == SumOver(keys, f) - f[x] + g[x]
  {
    SumTakeOut(keys, f, x);
    SumTakeOut(keys, g, x);
    SumSame(keys - {x}, f, g);
  }

  lemma {:induction false} SumAtMost(keys: set<string>, f: map<string, int>, g: map<string, int>)
    requires keys <= f.Keys && keys <= g.Keys && forall k :: k in keys ==> f[k] <= g[k]
    ensures SumOver(keys, f) <= SumOver(keys, g)
    decreases |keys|
  {
    if keys != {} {
      var k :| k in keys && SumOver(keys, f) == f[k] + SumOver(keys - {k}, f);
      SumTakeOut(keys, g, k);
      SumAtMost(keys - {k}, f, g);
    }
  }

  /** One smaller entry makes the sum smaller. */
  lemma SumBelow(keys: set<string>, f: map<string, int>, g: map<string, int>, x: string)
    requires keys <= f.Keys && keys <= g.Keys && forall k :: k in keys ==> f[k] <= g[k]
    requires x in keys && f[x] < g[x]
    ensures SumOver(keys, f) < SumOver(keys, g)
  {
    SumTakeOut(keys, f, x);
    SumTakeOut(keys, g, x);
    SumAtMost(keys - {x}, f, g);
  }

  lemma {:induction false} SumConstant(keys: set<string>, f: map<string, int>, v: int)
    requires keys <= f.Keys && forall k :: k in keys ==> f[k] == v
    ensures SumOver(keys, f) == |keys| * v
    decreases |keys|
  {
    if keys != {} {
      var k :| k in keys && SumOver(keys, f) == f[k] + SumOver(keys - {k}, f);
      SumConstant(keys - {k}, f, v);
    }
  }
}
