/** The symbol table: the namespaces of the imported host modules merged, in
    import order, into one table. A name several modules define takes the
    value of the last of them. */
module Globals {

  /** Some module of `ms` defines `k`. */
  ghost predicate DefinedIn<V>(ms: seq<map<string, V>>, k: string) {
    exists j :: 0 <= j < |ms| && k in ms[j]
  }

  /** Module `j` is the last module of `ms` that defines `k`. */
  ghost predicate LastDefines<V>(ms: seq<map<string, V>>, j: int, k: string) {
    && 0 <= j < |ms|
    && k in ms[j]
    && forall l :: j < l < |ms| ==> k !in ms[l]
  }

  /** The table after merging the namespaces `ms` in order. */
  function MergeAll<V>(ms: seq<map<string, V>>): map<string, V> {
    if |ms| == 0 then map[] else MergeAll(ms[..|ms| - 1]) + ms[|ms| - 1]
  }

  /** The merged table holds exactly the names some module defines. */
  lemma {:induction false} MergedNames<V>(ms: seq<map<string, V>>)
    ensures forall k :: k in MergeAll(ms) <==> DefinedIn(ms, k)
  {
    if |ms| > 0 {
      var front := ms[..|ms| - 1];
      MergedNames(front);
      forall k
        ensures k in MergeAll(ms) <==> DefinedIn(ms, k)
      {
        if k in ms[|ms| - 1] {
          assert DefinedIn(ms, k);
        } else if DefinedIn(front, k) {
          var j :| 0 <= j < |front| && k in front[j];
          assert k in ms[j];
        }
      }
    }
  }

  /** The last module to define a name decides its value in the merged
      table. */
  lemma {:induction false} MergedValues<V>(ms: seq<map<string, V>>)
    ensures forall k :: k in MergeAll(ms) ==>
      exists j :: LastDefines(ms, j, k) && MergeAll(ms)[k] == ms[j][k]
  {
    if |ms| > 0 {
      var front := ms[..|ms| - 1];
      MergedValues(front);
      forall k | k in MergeAll(ms)
        ensures exists j :: LastDefines(ms, j, k) && MergeAll(ms)[k] == ms[j][k]
      {
        if k in ms[|ms| - 1] {
          assert LastDefines(ms, |ms| - 1, k);
        } else {
          var j :| LastDefines(front, j, k) && MergeAll(front)[k] == front[j][k];
          forall l | j < l < |ms|
            ensures k !in ms[l]
          {
            if l < |front| {
              assert ms[l] == front[l];
            }
          }
          assert LastDefines(ms, j, k);
        }
      }
    }
  }

  /** `set_item` for every entry of namespace `ns`, one at a time. */
  method SetAll<V>(globals: map<string, V>, ns: map<string, V>) returns (r: map<string, V>)
    ensures r == globals + ns
  {
    r := globals;
    var pending := ns.Keys;
    while pending != {}
      invariant pending <= ns.Keys
      invariant forall k :: k in r <==> k in globals || (k in ns && k !in pending)
      invariant forall k :: k in r ==> r[k] == if k in ns && k !in pending then ns[k] else globals[k]
      decreases pending
    {
      var k :| k in pending;
      r := r[k := ns[k]];
      pending := pending - {k};
    }
  }

  /** `build_globals_dict`: copy every module's namespace into one table, in
      import order. */
  method BuildGlobals<V>(modules: seq<map<string, V>>) returns (globals: map<string, V>)
    ensures globals == MergeAll(modules)
  {
    globals := map[];
    var i := 0;
    while i < |modules|
      invariant 0 <= i <= |modules|
      invariant globals == MergeAll(modules[..i])
    {
      globals := SetAll(globals, modules[i]);
      assert modules[..i + 1][..i] == modules[..i];
      i := i + 1;
    }
    assert modules[..i] == modules;
  }

  /** With no modules the table is empty. */
  lemma MergeNone<V>()
    ensures MergeAll<V>([]) == map[]
  {
  }

  /** Merging a single module yields exactly that module's namespace. */
  lemma MergeSingle<V>(m: map<string, V>)
    ensures MergeAll([m]) == m
  {
    assert [m][..0] == [];
  }

  /** Merging is compositional: merging two runs of modules one after the
      other is the union of their merges, the later run winning. */
  lemma {:induction false} MergeConcat<V>(a: seq<map<string, V>>, b: seq<map<string, V>>)
    ensures MergeAll(a + b) == MergeAll(a) + MergeAll(b)
    decreases |b|
  {
    if |b| == 0 {
      assert a + b == a;
    } else {
      var front := b[..|b| - 1];
      var last := b[|b| - 1];
      calc {
        MergeAll(a + b);
        { assert (a + b)[..|a + b| - 1] == a + front; }
        MergeAll(a + front) + last;
        { MergeConcat(a, front); }
        (MergeAll(a) + MergeAll(front)) + last;
        { UnionAssociative(MergeAll(a), MergeAll(front), last); }
        MergeAll(a) + (MergeAll(front) + last);
      }
    }
  }

  lemma UnionAssociative<V>(x: map<string, V>, y: map<string, V>, z: map<string, V>)
    ensures (x + y) + z == x + (y + z)
  {
  }

  /** Merging two modules is the union of their namespaces, the second
      winning. */
  lemma MergePair<V>(x: map<string, V>, y: map<string, V>)
    ensures MergeAll([x, y]) == x + y
  {
    assert [x, y][..1] == [x];
    MergeSingle(x);
  }

  /** Two adjacent modules that share no name may be imported in either
      order. */
  lemma DisjointModulesCommute<V>(p: seq<map<string, V>>, x: map<string, V>, y: map<string, V>, q: seq<map<string, V>>)
    requires x.Keys !! y.Keys
    ensures MergeAll(p + [x, y] + q) == MergeAll(p + [y, x] + q)
  {
    calc {
      MergeAll(p + [x, y] + q);
      { MergeConcat(p + [x, y], q); MergeConcat(p, [x, y]); }
      (MergeAll(p) + MergeAll([x, y])) + MergeAll(q);
      { MergePair(x, y); MergePair(y, x); assert x + y == y + x; }
      (MergeAll(p) + MergeAll([y, x])) + MergeAll(q);
      { MergeConcat(p + [y, x], q); MergeConcat(p, [y, x]); }
      MergeAll(p + [y, x] + q);
    }
  }
}
