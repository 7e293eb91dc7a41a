/** PkgFunc.cs and PkgFile.cs: a package routine with what it references,
    and a package file holding its routines. InternalCalls and
    ExternalCalls start empty and are assigned later by the call passes. */
module PkgFuncs {
  import opened TextUtils

  /** The fields of a PkgFunc at one moment. */
  datatype Routine = Routine(
    name: string,
    script: string,
    calls: seq<string>,
    internalCalls: seq<string>,
    externalCalls: seq<string>,
    tablesInSelects: seq<string>,
    tablesInInserts: seq<string>,
    tablesInUpdates: seq<string>,
    tablesInDeletes: seq<string>)

  class PkgFunc {
    var name: string
    var script: string
    var calls: seq<string>
    var internalCalls: seq<string>
    var externalCalls: seq<string>
    var tablesInSelects: seq<string>
    var tablesInInserts: seq<string>
    var tablesInUpdates: seq<string>
    var tablesInDeletes: seq<string>

    function Value(): Routine
      reads this
    {
      Routine(name, script, calls, internalCalls, externalCalls,
              tablesInSelects, tablesInInserts, tablesInUpdates, tablesInDeletes)
    }

    /** Name, calls and table lists are stored as given, the script loses its
        empty lines, and both resolved call lists start empty. */
    constructor (name: string, script: string, tablesInSelects: seq<string>, tablesInInserts: seq<string>,
                 tablesInUpdates: seq<string>, tablesInDeletes: seq<string>, calls: seq<string>)
      ensures Value() == Routine(name, RemoveEmptyLines(script), calls, [], [],
                                 tablesInSelects, tablesInInserts, tablesInUpdates, tablesInDeletes)
    {
      this.name := name;
      this.script := RemoveEmptyLines(script);
      this.tablesInSelects := tablesInSelects;
      this.tablesInInserts := tablesInInserts;
      this.tablesInUpdates := tablesInUpdates;
      this.tablesInDeletes := tablesInDeletes;
      this.calls := calls;
      this.internalCalls := [];
      this.externalCalls := [];
    }
  }

  /** A package file: the upper-cased package name and its routines in extraction order. */
  datatype PkgFile = PkgFile(name: string, funcs: seq<PkgFunc>)

  /** The routines, as values, of a sequence of PkgFunc objects. */
  function Values(fs: seq<PkgFunc>): (vs: seq<Routine>)
    reads fs
    ensures |vs| == |fs| && forall k :: 0 <= k < |fs| ==> vs[k] == fs[k].Value()
  {
    seq(|fs|, k reads fs requires 0 <= k < |fs| => fs[k].Value())
  }

  /** Appending an object appends its value. */
  lemma ValuesAppend(fs: seq<PkgFunc>, f: PkgFunc)
    ensures Values(fs + [f]) == Values(fs) + [f.Value()]
  {
    assert forall k :: 0 <= k < |fs| ==> (fs + [f])[k] == fs[k];
  }

  /** No object appears twice. */
  predicate Distinct(fs: seq<PkgFunc>) {
    forall i, j :: 0 <= i < j < |fs| ==> fs[i] != fs[j]
  }
}
