/** ExtractInformation of ProcessEntities.cs: the DDL dump is cut into table,
    view, index and trigger blocks, in that order, each cut working on what
    the previous one left; every table then becomes a TableEntity carrying
    the index and trigger scripts filed under its name, and the views become
    a dictionary from name to script. */
module EntityExtraction {
  import opened Wrappers
  import opened Strings
  import opened Dictionaries
  import opened EntityBlocks
  import opened TableEntities
  import opened TableSchema
  import opened TextUtils

  /** What ExtractInformation returns: the tables, and the views by name. */
  datatype Entities = Entities(tables: seq<TableEntity>, views: seq<Entry<string>>)

  /** Where(b => b.Key == key).Select(b => b.Value): the bodies filed under `key`, in order. */
  function BodiesWithKey(blocks: seq<Block>, key: string): (r: seq<string>)
    ensures |r| <= |blocks|
    ensures forall b :: b in r ==> exists k :: 0 <= k < |blocks| && blocks[k] == Block(key, b)
    ensures forall k :: 0 <= k < |blocks| && blocks[k].key == key ==> blocks[k].body in r
  {
    if |blocks| == 0 then []
    else
      var init := BodiesWithKey(blocks[..|blocks| - 1], key);
      var last := blocks[|blocks| - 1];
      assert forall k :: 0 <= k < |blocks| - 1 ==> blocks[..|blocks| - 1][k] == blocks[k];
      if last.key == key then init + [last.body] else init
  }

  /** Filing is done block by block: the bodies under a key in two runs of
      blocks are those of the first run followed by those of the second, so
      order and repetitions are kept. */
  lemma {:induction false} BodiesWithKeyAppend(a: seq<Block>, b: seq<Block>, key: string)
    ensures BodiesWithKey(a + b, key) == BodiesWithKey(a, key) + BodiesWithKey(b, key)
    decreases |b|
  {
    if |b| == 0 {
      assert a + b == a;
    } else {
      var n := |b| - 1;
      assert (a + b)[..|a + b| - 1] == a + b[..n];
      assert (a + b)[|a + b| - 1] == b[n];
      BodiesWithKeyAppend(a, b[..n], key);
    }
  }

  /** The entity of one table block. */
  function TableOf(table: Block, indexes: seq<Block>, triggers: seq<Block>): Result<TableEntity> {
    TableInformation(table.key, table.body, BodiesWithKey(indexes, table.key), BodiesWithKey(triggers, table.key))
  }

  /** Every table block's entity, in order; the first failure is the one raised. */
  function Tables(tables: seq<Block>, indexes: seq<Block>, triggers: seq<Block>): (r: Result<seq<TableEntity>>)
    ensures r.Ok? ==> |r.value| == |tables|
  {
    if |tables| == 0 then Ok([])
    else
      match Tables(tables[..|tables| - 1], indexes, triggers)
      case Err(e) => Err(e)
      case Ok(init) =>
        match TableOf(tables[|tables| - 1], indexes, triggers)
        case Err(e) => Err(e)
        case Ok(entity) => Ok(init + [entity])
  }

  /** The k-th entity is the entity of the k-th table block. */
  lemma {:induction false} TablesAt(tables: seq<Block>, indexes: seq<Block>, triggers: seq<Block>)
    requires Tables(tables, indexes, triggers).Ok?
    ensures forall k :: 0 <= k < |tables| ==> TableOf(tables[k], indexes, triggers) == Ok(Tables(tables, indexes, triggers).value[k])
  {
    hide TableOf;
    if |tables| > 0 {
      var n := |tables| - 1;
      TablesAt(tables[..n], indexes, triggers);
      assert forall k :: 0 <= k < n ==> tables[..n][k] == tables[k];
    }
  }

  /** ToDictionary(k => k.Key, v => v.Value): throws on a repeated view name. */
  function ViewDictionary(views: seq<Block>): (r: Result<seq<Entry<string>>>)
    ensures r.Ok? ==> |r.value| == |views|
  {
    if |views| == 0 then Ok([])
    else
      match ViewDictionary(views[..|views| - 1])
      case Err(e) => Err(e)
      case Ok(init) => Add(init, views[|views| - 1].key, views[|views| - 1].body)
  }

  /** The trigger blocks: cut only when the remainder still holds a trigger marker. */
  function TriggerBlocks(rest: string, schema: string): Result<seq<Block>> {
    if Contains(rest, Marker(Trigger)) then
      match BlockScripts(rest, Trigger, schema)
      case Err(e) => Err(e)
      case Ok((triggers, _)) => Ok(triggers)
    else Ok([])
  }

  /** The four cuts, each of what the previous one left. */
  datatype Cuts = Cuts(tables: seq<Block>, views: seq<Block>, indexes: seq<Block>, triggers: seq<Block>)

  function CutBlocks(script: string, schema: string): Result<Cuts> {
    match BlockScripts(script, Table, schema)
    case Err(e) => Err(e)
    case Ok((tables, afterTables)) =>
      match BlockScripts(afterTables, View, schema)
      case Err(e) => Err(e)
      case Ok((views, afterViews)) =>
        match BlockScripts(afterViews, Index, schema)
        case Err(e) => Err(e)
        case Ok((indexes, afterIndexes)) =>
          match TriggerBlocks(afterIndexes, schema)
          case Err(e) => Err(e)
          case Ok(triggers) => Ok(Cuts(tables, views, indexes, triggers))
  }

  /** ExtractInformation: the table list is built before the view dictionary,
      so a failing table is reported before a repeated view name. */
  function Extraction(script: string, schema: string): Result<Entities> {
    match CutBlocks(script, schema)
    case Err(e) => Err(e)
    case Ok(c) =>
      match Tables(c.tables, c.indexes, c.triggers)
      case Err(e) => Err(e)
      case Ok(entities) =>
        match ViewDictionary(c.views)
        case Err(e) => Err(e)
        case Ok(viewMap) => Ok(Entities(entities, viewMap))
  }

  // ---------------------------------------------------------------- the method

  /** ExtractInformation: the four cuts thread the script through, then the
      tables are built one by one and the views added one by one. */
  method ExtractInformation(script: string, schema: string) returns (r: Result<Entities>)
    ensures r == Extraction(script, schema)
  {
    var sqlScript := script;
    var tables, afterTables := ExtractBlockScripts(sqlScript, Table, schema);
    if tables.Err? {
      return Err(tables.error);
    }
    sqlScript := afterTables;
    var views, afterViews := ExtractBlockScripts(sqlScript, View, schema);
    if views.Err? {
      return Err(views.error);
    }
    sqlScript := afterViews;
    var indexes, afterIndexes := ExtractBlockScripts(sqlScript, Index, schema);
    if indexes.Err? {
      return Err(indexes.error);
    }
    sqlScript := afterIndexes;
    var triggers: Result<seq<Block>> := Ok([]);
    if Contains(sqlScript, Marker(Trigger)) {
      var afterTriggers;
      triggers, afterTriggers := ExtractBlockScripts(sqlScript, Trigger, schema);
      if triggers.Err? {
        return Err(triggers.error);
      }
    }
    assert CutBlocks(script, schema) == Ok(Cuts(tables.value, views.value, indexes.value, triggers.value));
    var entities := BuildTables(tables.value, indexes.value, triggers.value);
    if entities.Err? {
      return Err(entities.error);
    }
    var viewMap := BuildViewDictionary(views.value);
    if viewMap.Err? {
      return Err(viewMap.error);
    }
    r := Ok(Entities(entities.value, viewMap.value));
  }

  /** tableScripts.Select(ExtractTableInformation(...)).ToList(), table by table. */
  method BuildTables(tables: seq<Block>, indexes: seq<Block>, triggers: seq<Block>) returns (r: Result<seq<TableEntity>>)
    ensures r == Tables(tables, indexes, triggers)
  {
    var entities: seq<TableEntity> := [];
    var i := 0;
    while i < |tables|
      invariant 0 <= i <= |tables|
      invariant Tables(tables[..i], indexes, triggers) == Ok(entities)
    {
      var table := tables[i];
      var entity := ExtractTableInformation(table.key, table.body, BodiesWithKey(indexes, table.key),
                                            BodiesWithKey(triggers, table.key));
      TablesStep(tables, i, indexes, triggers);
      if entity.Err? {
        TablesPrefixError(tables, i + 1, indexes, triggers);
        return Err(entity.error);
      }
      entities := entities + [entity.value];
      i := i + 1;
    }
    assert tables[..i] == tables;
    r := Ok(entities);
  }

  lemma TablesStep(tables: seq<Block>, i: nat, indexes: seq<Block>, triggers: seq<Block>)
    requires i < |tables| && Tables(tables[..i], indexes, triggers).Ok?
    ensures var e := TableOf(tables[i], indexes, triggers);
      Tables(tables[..i + 1], indexes, triggers)
        == if e.Err? then Err(e.error) else Ok(Tables(tables[..i], indexes, triggers).value + [e.value])
  {
    assert tables[..i + 1][..i] == tables[..i] && tables[..i + 1][i] == tables[i];
  }

  /** A failing table fails the whole list with its error. */
  lemma {:induction false} TablesPrefixError(tables: seq<Block>, n: nat, indexes: seq<Block>, triggers: seq<Block>)
    requires n <= |tables| && Tables(tables[..n], indexes, triggers).Err?
    ensures Tables(tables, indexes, triggers) == Tables(tables[..n], indexes, triggers)
    decreases |tables| - n
  {
    if n < |tables| {
      assert tables[..n + 1][..n] == tables[..n];
      TablesPrefixError(tables, n + 1, indexes, triggers);
    } else {
      assert tables[..n] == tables;
    }
  }

  /** views.ToDictionary(...), view by view. */
  method BuildViewDictionary(views: seq<Block>) returns (r: Result<seq<Entry<string>>>)
    ensures r == ViewDictionary(views)
  {
    var d: seq<Entry<string>> := [];
    var i := 0;
    while i < |views|
      invariant 0 <= i <= |views|
      invariant ViewDictionary(views[..i]) == Ok(d)
    {
      assert views[..i + 1][..i] == views[..i];
      var added := Add(d, views[i].key, views[i].body);
      if added.Err? {
        ViewDictionaryPrefixError(views, i + 1);
        return Err(added.error);
      }
      d := added.value;
      i := i + 1;
    }
    assert views[..i] == views;
    r := Ok(d);
  }

  lemma {:induction false} ViewDictionaryPrefixError(views: seq<Block>, n: nat)
    requires n <= |views| && ViewDictionary(views[..n]).Err?
    ensures ViewDictionary(views) == ViewDictionary(views[..n])
    decreases |views| - n
  {
    if n < |views| {
      assert views[..n + 1][..n] == views[..n];
      ViewDictionaryPrefixError(views, n + 1);
    } else {
      assert views[..n] == views;
    }
  }

  // ---------------------------------------------------------------- properties

  /** ToDictionary succeeds exactly when no two views share a name, and then
      holds every view under its name, in order. */
  lemma {:induction false} ViewDictionaryDistinct(views: seq<Block>)
    ensures ViewDictionary(views).Ok? <==> forall i, j :: 0 <= i < j < |views| ==> views[i].key != views[j].key
    ensures ViewDictionary(views).Ok? ==>
      forall k :: 0 <= k < |views| ==> ViewDictionary(views).value[k] == Entry(views[k].key, views[k].body)
  {
    if |views| > 0 {
      var n := |views| - 1;
      var init := views[..n];
      ViewDictionaryDistinct(init);
      assert forall k :: 0 <= k < n ==> init[k] == views[k];
      if ViewDictionary(init).Ok? {
        var d := ViewDictionary(init).value;
        assert views[n].key in Keys(d) <==> exists k :: 0 <= k < n && views[k].key == views[n].key by {
          forall k | 0 <= k < n ensures Keys(d)[k] == views[k].key {
          }
        }
      }
    }
  }

  /** A dump that is all white space has no table fragment: ExtractInformation throws. */
  lemma BlankDumpFails(script: string, schema: string)
    requires IsBlank(script)
    ensures Extraction(script, schema).Err?
  {
    BlankScriptFails(script, Table, schema);
  }

  /** With no "DDL for Trigger" anywhere in the dump the trigger cut is
      skipped, and every table comes out with no trigger. */
  lemma NoTriggerMarkerNoTriggers(script: string, schema: string)
    requires !Contains(script, Marker(Trigger)) && Extraction(script, schema).Ok?
    ensures forall k :: 0 <= k < |Extraction(script, schema).value.tables| ==>
      Extraction(script, schema).value.tables[k].triggers == []
  {
    var (tables, afterTables) := BlockScripts(script, Table, schema).value;
    var (views, afterViews) := BlockScripts(afterTables, View, schema).value;
    var (indexes, afterIndexes) := BlockScripts(afterViews, Index, schema).value;
    var m := Marker(Trigger);
    if Contains(afterIndexes, m) {
      RemainderWithin(afterViews, Index, schema, m);
      RemainderWithin(afterTables, View, schema, m);
      RemainderWithin(script, Table, schema, m);
    }
    var c := CutBlocks(script, schema).value;
    assert c.triggers == [];
    var es := Extraction(script, schema).value.tables;
    TablesAt(c.tables, c.indexes, c.triggers);
    forall k | 0 <= k < |es| ensures es[k].triggers == [] {
      var t := c.tables[k];
      TableInformationShape(t.key, t.body, BodiesWithKey(c.indexes, t.key), BodiesWithKey(c.triggers, t.key));
    }
  }

  /** One entity per table block, in order: it is named by the block's key,
      which is upper-cased and free of double quotes; its index scripts are
      the bodies of the index blocks filed under that key, in block order,
      and its trigger scripts those of the trigger blocks filed under it,
      with their empty lines removed. The views come out under distinct
      names. */
  lemma TablesCarryTheirBlocks(script: string, schema: string)
    requires Extraction(script, schema).Ok?
    ensures CutBlocks(script, schema).Ok?
    ensures var c := CutBlocks(script, schema).value; var es := Extraction(script, schema).value.tables;
      |es| == |c.tables| && forall k :: 0 <= k < |es| ==>
        && es[k].name == c.tables[k].key
        && IsUpperCased(es[k].name) && '"' !in es[k].name
        && es[k].indexes == BodiesWithKey(c.indexes, es[k].name)
        && (forall x :: x in es[k].indexes <==> exists j :: 0 <= j < |c.indexes| && c.indexes[j] == Block(es[k].name, x))
        && |es[k].triggers| == |BodiesWithKey(c.triggers, es[k].name)|
        && forall i :: 0 <= i < |es[k].triggers| ==>
             es[k].triggers[i] == RemoveEmptyLines(BodiesWithKey(c.triggers, es[k].name)[i])
    ensures DistinctKeys(Extraction(script, schema).value.views)
  {
    hide BlockScripts, TableColumns, Properties, TableComments, ViewDictionary, RemoveEmptyLines;
    var c := CutBlocks(script, schema).value;
    var es := Extraction(script, schema).value.tables;
    BlockScriptsShape(script, Table, schema);
    TablesAt(c.tables, c.indexes, c.triggers);
    forall k | 0 <= k < |es|
      ensures es[k].name == c.tables[k].key && IsUpperCased(es[k].name) && '"' !in es[k].name
      ensures es[k].indexes == BodiesWithKey(c.indexes, es[k].name)
      ensures |es[k].triggers| == |BodiesWithKey(c.triggers, es[k].name)|
      ensures forall i :: 0 <= i < |es[k].triggers| ==>
        es[k].triggers[i] == RemoveEmptyLines(BodiesWithKey(c.triggers, es[k].name)[i])
    {
      assert TableOf(c.tables[k], c.indexes, c.triggers) == Ok(es[k]);
    }
    ViewDictionaryDistinct(c.views);
    var vs := Extraction(script, schema).value.views;
    forall i, j | 0 <= i < j < |vs| ensures vs[i].key != vs[j].key {
    }
  }
}
