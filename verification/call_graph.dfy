/** SetInternalCalls and SetExternalCalls of ProcessPackages.cs: a routine's
    calls are resolved against the routines of its own package and against
    every routine of the schema, with Enumerable.Intersect under
    StringComparer.InvariantCultureIgnoreCase. */
module CallGraph {
  import opened Strings
  import opened PkgFuncs

  // ---------------------------------------------------------------- intersect

  /** The upper-cased forms of some strings: two strings are equal ignoring
      case when their upper-cased forms are. */
  function Uppers(xs: seq<string>): (us: seq<string>)
    ensures |us| == |xs| && forall k :: 0 <= k < |xs| ==> us[k] == ToUpper(xs[k])
  {
    seq(|xs|, k requires 0 <= k < |xs| => ToUpper(xs[k]))
  }

  /** `x` is in `xs`, ignoring case. */
  predicate CiIn(x: string, xs: seq<string>) {
    ToUpper(x) in Uppers(xs)
  }

  /** Enumerable.Intersect(first, second, comparer): the elements of `first`
      that are in `second`, in the order of `first`, each only at its first
      occurrence: the set built from `second` loses an element once it has
      been yielded. */
  function Intersect(first: seq<string>, second: seq<string>): seq<string> {
    if |first| == 0 then []
    else
      var n := |first| - 1;
      var init := Intersect(first[..n], second);
      if CiIn(first[n], second) && !CiIn(first[n], first[..n]) then init + [first[n]] else init
  }

  /** Every element of the intersection comes from `first` and is in
      `second`. */
  lemma {:induction false} IntersectSound(first: seq<string>, second: seq<string>)
    ensures forall x :: x in Intersect(first, second) ==> x in first && CiIn(x, second)
  {
    if |first| > 0 {
      var n := |first| - 1;
      IntersectSound(first[..n], second);
      assert forall x :: x in first[..n] ==> x in first;
    }
  }

  /** Every element of `first` that is in `second` is in the intersection,
      ignoring case. */
  lemma {:induction false} IntersectComplete(first: seq<string>, second: seq<string>)
    ensures forall y :: y in first && CiIn(y, second) ==> CiIn(y, Intersect(first, second))
  {
    if |first| > 0 {
      var n := |first| - 1;
      var init := Intersect(first[..n], second);
      IntersectComplete(first[..n], second);
      assert Uppers(init) <= Uppers(Intersect(first, second)) by {
        if CiIn(first[n], second) && !CiIn(first[n], first[..n]) {
          assert Uppers(Intersect(first, second)) == Uppers(init) + [ToUpper(first[n])];
        }
      }
      forall y | y in first && CiIn(y, second) ensures CiIn(y, Intersect(first, second)) {
        var i :| 0 <= i < |first| && first[i] == y;
        if i < n {
          assert first[..n][i] == y;
        } else if CiIn(y, first[..n]) {
          var k :| 0 <= k < n && Uppers(first[..n])[k] == ToUpper(y);
          var z := first[..n][k];
          assert ToUpper(z) == ToUpper(y);
          assert CiIn(z, init);
        } else {
          assert Intersect(first, second)[|init|] == y;
        }
      }
    }
  }

  /** No two elements of the intersection are equal ignoring case. */
  lemma {:induction false} IntersectDistinct(first: seq<string>, second: seq<string>)
    ensures forall i, j :: 0 <= i < j < |Intersect(first, second)| ==>
      ToUpper(Intersect(first, second)[i]) != ToUpper(Intersect(first, second)[j])
  {
    if |first| > 0 {
      var n := |first| - 1;
      var init := Intersect(first[..n], second);
      IntersectDistinct(first[..n], second);
      IntersectSound(first[..n], second);
      if CiIn(first[n], second) && !CiIn(first[n], first[..n]) {
        var r := Intersect(first, second);
        forall i | 0 <= i < |init| ensures ToUpper(r[i]) != ToUpper(first[n]) {
          assert r[i] == init[i];
          assert init[i] in first[..n];
          var k :| 0 <= k < n && first[..n][k] == init[i];
          assert Uppers(first[..n])[k] == ToUpper(init[i]);
        }
      }
    }
  }

  /** The intersection is built in the order of `first`: the intersection
      of a prefix of `first` is a prefix of the intersection. */
  lemma {:induction false} IntersectPrefix(first: seq<string>, second: seq<string>, m: nat)
    requires m <= |first|
    ensures Intersect(first[..m], second) <= Intersect(first, second)
    decreases |first|
  {
    if m < |first| {
      var n := |first| - 1;
      IntersectPrefix(first[..n], second, m);
      assert first[..n][..m] == first[..m];
    } else {
      assert first[..m] == first;
    }
  }

  /** `x` occurs in `xs` with no element equal to it ignoring case before
      that occurrence. */
  predicate FirstOfClass(x: string, xs: seq<string>) {
    exists i :: 0 <= i < |xs| && xs[i] == x && !CiIn(x, xs[..i])
  }

  /** Each element of the intersection is the first element of `first` of
      its class ignoring case: later case variants find it already removed
      from the set. */
  lemma {:induction false} IntersectFirstOfClass(first: seq<string>, second: seq<string>)
    ensures forall x :: x in Intersect(first, second) ==> FirstOfClass(x, first)
  {
    if |first| > 0 {
      var n := |first| - 1;
      var init := Intersect(first[..n], second);
      IntersectFirstOfClass(first[..n], second);
      forall x | x in Intersect(first, second) ensures FirstOfClass(x, first) {
        if x in init {
          var i :| 0 <= i < n && first[..n][i] == x && !CiIn(x, first[..n][..i]);
          assert first[..n][..i] == first[..i];
          assert first[i] == x;
        } else {
          assert x == first[n] && !CiIn(x, first[..n]);
        }
      }
    }
  }

  // ---------------------------------------------------------------- passes

  /** The index of the first routine without calls, or the number of
      routines when every one has calls. */
  function FirstWithoutCalls(rs: seq<Routine>): (n: nat)
    ensures n <= |rs|
    ensures forall k :: 0 <= k < n ==> rs[k].calls != []
    ensures n < |rs| ==> rs[n].calls == []
  {
    if |rs| == 0 || rs[0].calls == [] then 0
    else
      var m := FirstWithoutCalls(rs[1..]);
      assert forall k :: 1 <= k < 1 + m ==> rs[k] == rs[1..][k - 1];
      1 + m
  }

  /** What a pass resolves a routine's calls against: the names of the
      routines of its package, or the registry of every routine of the
      schema. */
  datatype Resolution = Internal(names: seq<string>) | External(registry: seq<string>)

  /** InternalCalls = Calls.Intersect(names); ExternalCalls =
      registry.Intersect(Calls). */
  function Resolve(r: Routine, res: Resolution): Routine {
    match res
    case Internal(names) => r.(internalCalls := Intersect(r.calls, names))
    case External(registry) => r.(externalCalls := Intersect(registry, r.calls))
  }

  /** Every routine resolved. */
  function Resolved(rs: seq<Routine>, res: Resolution): (qs: seq<Routine>)
    ensures |qs| == |rs| && forall k {:trigger qs[k]} :: 0 <= k < |rs| ==> qs[k] == Resolve(rs[k], res)
  {
    seq(|rs|, k requires 0 <= k < |rs| => Resolve(rs[k], res))
  }

  /** One pass over the routines of a package: the routines before the first
      one without calls are resolved; the pass returns at that routine, so
      it and every later routine keep what they had. */
  function Pass(rs: seq<Routine>, res: Resolution): seq<Routine> {
    var n := FirstWithoutCalls(rs);
    seq(|rs|, k requires 0 <= k < |rs| => if k < n then Resolve(rs[k], res) else rs[k])
  }

  /** The names of some routines, in order. */
  function Names(rs: seq<Routine>): (ns: seq<string>)
    ensures |ns| == |rs| && forall k :: 0 <= k < |rs| ==> ns[k] == rs[k].name
  {
    seq(|rs|, k requires 0 <= k < |rs| => rs[k].name)
  }

  /** SetInternalCalls on the routines of a package. */
  function InternalPass(rs: seq<Routine>): seq<Routine> {
    Pass(rs, Internal(Names(rs)))
  }

  /** SetExternalCalls on the routines of a package. */
  function ExternalPass(rs: seq<Routine>, registry: seq<string>): seq<Routine> {
    Pass(rs, External(registry))
  }

  // ---------------------------------------------------------------- the methods

  /** The objects of a package file. */
  function Objects(f: PkgFile): set<object> {
    set k | 0 <= k < |f.funcs| :: f.funcs[k]
  }

  /** SetInternalCalls: each routine in turn gets its calls that name a
      routine of the package, until one has no calls. */
  method SetInternalCalls(f: PkgFile)
    requires Distinct(f.funcs)
    modifies Objects(f)
    ensures Values(f.funcs) == InternalPass(old(Values(f.funcs)))
  {
    hide Pass, Resolved;
    ghost var before := Values(f.funcs);
    var internalFuncs := Names(Values(f.funcs));
    ghost var resolved := Resolved(before, Internal(internalFuncs));
    var i := 0;
    while i < |f.funcs|
      invariant 0 <= i <= |f.funcs|
      invariant forall k :: 0 <= k < i ==> before[k].calls != []
      invariant forall k :: 0 <= k < i ==> f.funcs[k].Value() == resolved[k]
      invariant forall k :: i <= k < |f.funcs| ==> f.funcs[k].Value() == before[k]
    {
      var func := f.funcs[i];
      if |func.calls| == 0 {
        PassStopsAt(before, Internal(internalFuncs), i);
        assert Values(f.funcs) == Pass(before, Internal(internalFuncs));
        return;
      }
      ResolveOne(f, i, Internal(internalFuncs));
      i := i + 1;
    }
    PassStopsAt(before, Internal(internalFuncs), i);
    assert Values(f.funcs) == Pass(before, Internal(internalFuncs));
  }

  /** SetExternalCalls: each routine in turn gets the registry entries that
      are among its calls, until one has no calls. */
  method SetExternalCalls(f: PkgFile, externalCalls: seq<string>)
    requires Distinct(f.funcs)
    modifies Objects(f)
    ensures Values(f.funcs) == ExternalPass(old(Values(f.funcs)), externalCalls)
  {
    hide Pass, Resolved;
    ghost var before := Values(f.funcs);
    ghost var resolved := Resolved(before, External(externalCalls));
    var i := 0;
    while i < |f.funcs|
      invariant 0 <= i <= |f.funcs|
      invariant forall k :: 0 <= k < i ==> before[k].calls != []
      invariant forall k :: 0 <= k < i ==> f.funcs[k].Value() == resolved[k]
      invariant forall k :: i <= k < |f.funcs| ==> f.funcs[k].Value() == before[k]
    {
      var func := f.funcs[i];
      if |func.calls| == 0 {
        PassStopsAt(before, External(externalCalls), i);
        assert Values(f.funcs) == Pass(before, External(externalCalls));
        return;
      }
      ResolveOne(f, i, External(externalCalls));
      i := i + 1;
    }
    PassStopsAt(before, External(externalCalls), i);
    assert Values(f.funcs) == Pass(before, External(externalCalls));
  }

  /** One step of a pass: the i-th routine gets its resolved list
      (func.InternalCalls = ... or func.ExternalCalls = ...) and no other
      routine of the file changes. */
  method ResolveOne(f: PkgFile, i: nat, res: Resolution)
    requires i < |f.funcs| && Distinct(f.funcs)
    modifies f.funcs[i]
    ensures f.funcs[i].Value() == Resolve(old(f.funcs[i].Value()), res)
    ensures forall k :: 0 <= k < |f.funcs| && k != i ==> f.funcs[k].Value() == old(f.funcs[k].Value())
  {
    var func := f.funcs[i];
    match res
    case Internal(names) =>
      func.internalCalls := Intersect(func.calls, names);
    case External(registry) =>
      func.externalCalls := Intersect(registry, func.calls);
  }

  /** A pass that has resolved the first `i` routines, all with calls, and
      stops at `i` (no calls there, or no routine left) has done all it does. */
  lemma PassStopsAt(rs: seq<Routine>, res: Resolution, i: nat)
    requires i <= |rs| && forall k :: 0 <= k < i ==> rs[k].calls != []
    requires i < |rs| ==> rs[i].calls == []
    ensures FirstWithoutCalls(rs) == i
    ensures |Pass(rs, res)| == |rs|
    ensures forall k :: 0 <= k < |rs| ==> Pass(rs, res)[k] == if k < i then Resolve(rs[k], res) else rs[k]
  {
  }

  // ---------------------------------------------------------------- pass properties

  /** The early return: a routine without calls, and every routine after it,
      keep what they had. */
  lemma PassStopsAtFirstWithoutCalls(rs: seq<Routine>, res: Resolution)
    ensures forall j, k :: 0 <= j <= k < |rs| && rs[j].calls == [] ==> Pass(rs, res)[k] == rs[k]
    ensures forall k :: 0 <= k < |rs| && (forall j :: 0 <= j <= k ==> rs[j].calls != []) ==> Pass(rs, res)[k] == Resolve(rs[k], res)
  {
    var n := FirstWithoutCalls(rs);
    forall j, k | 0 <= j <= k < |rs| && rs[j].calls == [] ensures Pass(rs, res)[k] == rs[k] {
      assert n <= j;
    }
    forall k | 0 <= k < |rs| && (forall j :: 0 <= j <= k ==> rs[j].calls != []) ensures Pass(rs, res)[k] == Resolve(rs[k], res) {
      assert n < |rs| ==> rs[n].calls == [];
    }
  }

  /** A pass sets one list of each routine it reaches and nothing else. */
  lemma PassSetsOneList(rs: seq<Routine>, res: Resolution)
    ensures |Pass(rs, res)| == |rs|
    ensures forall k :: 0 <= k < |rs| ==>
      && Pass(rs, res)[k].name == rs[k].name && Pass(rs, res)[k].script == rs[k].script
      && Pass(rs, res)[k].calls == rs[k].calls
      && Pass(rs, res)[k].tablesInSelects == rs[k].tablesInSelects && Pass(rs, res)[k].tablesInInserts == rs[k].tablesInInserts
      && Pass(rs, res)[k].tablesInUpdates == rs[k].tablesInUpdates && Pass(rs, res)[k].tablesInDeletes == rs[k].tablesInDeletes
    ensures res.Internal? ==> forall k :: 0 <= k < |rs| ==> Pass(rs, res)[k].externalCalls == rs[k].externalCalls
    ensures res.External? ==> forall k :: 0 <= k < |rs| ==> Pass(rs, res)[k].internalCalls == rs[k].internalCalls
  {
  }

  /** After SetInternalCalls, every internal call of a routine is one of its
      calls and names a routine of the package, ignoring case; every call
      that names one is there, ignoring case, unless the pass returned
      earlier; no two are equal ignoring case; each is the first of the
      routine's calls of its class; and they come in the order of the
      calls. */
  lemma InternalCallsResolved(rs: seq<Routine>)
    requires forall k :: 0 <= k < |rs| ==> rs[k].internalCalls == []
    ensures forall k :: 0 <= k < |rs| ==>
      forall c :: c in InternalPass(rs)[k].internalCalls ==> c in rs[k].calls && CiIn(c, Names(rs))
    ensures forall k :: 0 <= k < FirstWithoutCalls(rs) ==>
      forall c :: c in rs[k].calls && CiIn(c, Names(rs)) ==> CiIn(c, InternalPass(rs)[k].internalCalls)
    ensures forall k, i, j :: 0 <= k < |rs| && 0 <= i < j < |InternalPass(rs)[k].internalCalls| ==>
      ToUpper(InternalPass(rs)[k].internalCalls[i]) != ToUpper(InternalPass(rs)[k].internalCalls[j])
    ensures forall k :: 0 <= k < |rs| ==>
      forall c :: c in InternalPass(rs)[k].internalCalls ==> FirstOfClass(c, rs[k].calls)
    ensures forall k :: 0 <= k < FirstWithoutCalls(rs) ==>
      forall m :: 0 <= m <= |rs[k].calls| ==> Intersect(rs[k].calls[..m], Names(rs)) <= InternalPass(rs)[k].internalCalls
  {
    var names := Names(rs);
    var n := FirstWithoutCalls(rs);
    forall k | 0 <= k < |rs|
      ensures forall c :: c in InternalPass(rs)[k].internalCalls ==> c in rs[k].calls && CiIn(c, names)
      ensures k < n ==> forall c :: c in rs[k].calls && CiIn(c, names) ==> CiIn(c, InternalPass(rs)[k].internalCalls)
      ensures forall i, j :: 0 <= i < j < |InternalPass(rs)[k].internalCalls| ==>
        ToUpper(InternalPass(rs)[k].internalCalls[i]) != ToUpper(InternalPass(rs)[k].internalCalls[j])
      ensures forall c :: c in InternalPass(rs)[k].internalCalls ==> FirstOfClass(c, rs[k].calls)
      ensures k < n ==> forall m :: 0 <= m <= |rs[k].calls| ==> Intersect(rs[k].calls[..m], names) <= InternalPass(rs)[k].internalCalls
    {
      IntersectSound(rs[k].calls, names);
      IntersectComplete(rs[k].calls, names);
      IntersectDistinct(rs[k].calls, names);
      IntersectFirstOfClass(rs[k].calls, names);
      forall m | 0 <= m <= |rs[k].calls| ensures Intersect(rs[k].calls[..m], names) <= Intersect(rs[k].calls, names) {
        IntersectPrefix(rs[k].calls, names, m);
      }
    }
  }

  /** After SetExternalCalls, every external call of a routine is a registry
      entry that is among its calls, ignoring case; every such entry is
      there, unless the pass returned earlier; no two are equal ignoring
      case; each is the first registry entry of its class; and they come in
      registry order. */
  lemma ExternalCallsResolved(rs: seq<Routine>, registry: seq<string>)
    requires forall k :: 0 <= k < |rs| ==> rs[k].externalCalls == []
    ensures forall k :: 0 <= k < |rs| ==>
      forall c :: c in ExternalPass(rs, registry)[k].externalCalls ==> c in registry && CiIn(c, rs[k].calls)
    ensures forall k :: 0 <= k < FirstWithoutCalls(rs) ==>
      forall c :: c in registry && CiIn(c, rs[k].calls) ==> CiIn(c, ExternalPass(rs, registry)[k].externalCalls)
    ensures forall k, i, j :: 0 <= k < |rs| && 0 <= i < j < |ExternalPass(rs, registry)[k].externalCalls| ==>
      ToUpper(ExternalPass(rs, registry)[k].externalCalls[i]) != ToUpper(ExternalPass(rs, registry)[k].externalCalls[j])
    ensures forall k :: 0 <= k < |rs| ==>
      forall c :: c in ExternalPass(rs, registry)[k].externalCalls ==> FirstOfClass(c, registry)
    ensures forall k :: 0 <= k < FirstWithoutCalls(rs) ==>
      forall m :: 0 <= m <= |registry| ==> Intersect(registry[..m], rs[k].calls) <= ExternalPass(rs, registry)[k].externalCalls
  {
    var n := FirstWithoutCalls(rs);
    forall k | 0 <= k < |rs|
      ensures forall c :: c in ExternalPass(rs, registry)[k].externalCalls ==> c in registry && CiIn(c, rs[k].calls)
      ensures k < n ==> forall c :: c in registry && CiIn(c, rs[k].calls) ==> CiIn(c, ExternalPass(rs, registry)[k].externalCalls)
      ensures forall i, j :: 0 <= i < j < |ExternalPass(rs, registry)[k].externalCalls| ==>
        ToUpper(ExternalPass(rs, registry)[k].externalCalls[i]) != ToUpper(ExternalPass(rs, registry)[k].externalCalls[j])
      ensures forall c :: c in ExternalPass(rs, registry)[k].externalCalls ==> FirstOfClass(c, registry)
      ensures k < n ==> forall m :: 0 <= m <= |registry| ==> Intersect(registry[..m], rs[k].calls) <= ExternalPass(rs, registry)[k].externalCalls
    {
      IntersectSound(registry, rs[k].calls);
      IntersectComplete(registry, rs[k].calls);
      IntersectDistinct(registry, rs[k].calls);
      IntersectFirstOfClass(registry, rs[k].calls);
      forall m | 0 <= m <= |registry| ensures Intersect(registry[..m], rs[k].calls) <= Intersect(registry, rs[k].calls) {
        IntersectPrefix(registry, rs[k].calls, m);
      }
    }
  }
}
