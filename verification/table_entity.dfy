/** TableEntity.cs: a table with its columns, index and trigger scripts and
    its own script. The constructor normalises the scripts it stores. */
module TableEntities {
  import opened TextUtils
  import opened TableProperties

  datatype TableEntity = TableEntity(
    name: string,
    properties: seq<TableProperty>,
    indexes: seq<string>,
    triggers: seq<string>,
    script: string)

  /** The TableEntity constructor: triggers and script lose their empty
      lines, everything else is stored as given. */
  function NewTableEntity(name: string, properties: seq<TableProperty>, indexes: seq<string>,
                          triggers: seq<string>, script: string): (e: TableEntity)
    ensures e.name == name && e.properties == properties && e.indexes == indexes
    ensures |e.triggers| == |triggers|
    ensures forall k :: 0 <= k < |triggers| ==> e.triggers[k] == RemoveEmptyLines(triggers[k])
    ensures e.script == RemoveEmptyLines(script)
  {
    TableEntity(name, properties, indexes,
                seq(|triggers|, k requires 0 <= k < |triggers| => RemoveEmptyLines(triggers[k])),
                RemoveEmptyLines(script))
  }

  /** The stored scripts are never longer than the ones given. */
  lemma EntityScriptsNotLonger(name: string, properties: seq<TableProperty>, indexes: seq<string>,
                               triggers: seq<string>, script: string)
    ensures var e := NewTableEntity(name, properties, indexes, triggers, script);
      |e.script| <= |script| && forall k :: 0 <= k < |triggers| ==> |e.triggers[k]| <= |triggers[k]|
  {
    RemoveEmptyLinesNotLonger(script);
    forall k | 0 <= k < |triggers| ensures |RemoveEmptyLines(triggers[k])| <= |triggers[k]| {
      RemoveEmptyLinesNotLonger(triggers[k]);
    }
  }

  /** Index scripts, unlike trigger scripts, keep their empty lines. */
  lemma IndexesKeepEmptyLines()
    ensures var e := NewTableEntity("T", [], ["\n\n"], ["\n\n"], "");
      e.indexes[0] == "\n\n" && e.triggers[0] == "\n"
  {
    RemoveEmptyLinesNotIdempotent();
    assert RemoveEmptyLines("\n\n") == "\n";
  }
}
