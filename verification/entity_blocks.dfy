/** The block cutting of ProcessEntities.cs: a DDL dump is cut on the
    "DDL for <Type>" markers its exporter writes, and every block becomes a
    key (the object's name) and a body (its CREATE statement). */
module EntityBlocks {
  import opened Wrappers
  import opened Strings

  datatype BlockType = Table | View | Index | Trigger

  function TypeName(t: BlockType): string {
    match t
    case Table => "Table"
    case View => "View"
    case Index => "Index"
    case Trigger => "Trigger"
  }

  const BlockPrefix := "DDL for"

  /** The marker that opens a block of type `t`: "DDL for Table", ... */
  function Marker(t: BlockType): string {
    BlockPrefix + " " + TypeName(t)
  }

  /** A named block: the key under which it is filed and its cleaned script. */
  datatype Block = Block(key: string, body: string)

  // Regex.Split(s, marker + @"\s*"), for a marker with no regex
  // metacharacters: the text is cut at every occurrence of `marker`, found
  // left to right, and the run of white space after it goes with it.
  function SplitOnMarker(s: string, marker: string): (r: seq<string>)
    requires marker != []
    ensures |r| >= 1
    decreases |s|
  {
    var i := IndexOf(s, marker);
    if i < 0 then [s]
    else [s[..i]] + SplitOnMarker(s[RunEnd(s, i + |marker|, Space)..], marker)
  }

  /** The non-blank fragments of the dump cut on the marker of `t`. */
  function Fragments(script: string, t: BlockType): seq<string> {
    NonBlank(SplitOnMarker(script, Marker(t)))
  }

  // ---------------------------------------------------------------- names

  /** GetBlockName for an index: Substring(on + 4, paren - on - 5), with `on`
      the first " ON " and `paren` the first "(", each -1 when missing. */
  function IndexName(block: string): (r: Result<string>)
    ensures var on := IndexOf(block, " ON "); var paren := IndexOf(block, "(");
      r.Ok? <==> 0 <= on + 4 && on + 5 <= paren
    ensures var on := IndexOf(block, " ON "); var paren := IndexOf(block, "(");
      r.Ok? ==> r.value == block[on + 4..paren - 1]
  {
    var on := IndexOf(block, " ON ");
    var paren := IndexOf(block, "(");
    Substring(block, on + 4, paren - on - 5)
  }

  /** A keyword of the trigger lookahead REFERENCING|DECLARE|FOR\sEACH|BEGIN at `j`
      (case-sensitive). */
  predicate TriggerKeywordAt(s: string, j: nat) {
    || OccursAt(s, "REFERENCING", j)
    || OccursAt(s, "DECLARE", j)
    || (OccursAt(s, "FOR", j) && j + 3 < |s| && IsWhiteSpace(s[j + 3]) && OccursAt(s, "EACH", j + 4))
    || OccursAt(s, "BEGIN", j)
  }

  // A match of \b(\w+)\b(?=\s+(?:REFERENCING|DECLARE|FOR\sEACH|BEGIN))
  // that starts at `i`. \w+ must start at a word boundary, so at a word
  // character with none before it; it can only end where the word ends,
  // since the second \b fails inside a word; the lookahead's \s+ can only
  // take the whole white-space run, since no keyword starts with white space.
  function TriggerNameAt(s: string, i: nat): Option<string>
    requires i < |s|
  {
    if IsWordChar(s[i]) && (i == 0 || !IsWordChar(s[i - 1])) then
      var e := RunEnd(s, i, Word);
      var w := RunEnd(s, e, Space);
      if w > e && TriggerKeywordAt(s, w) then Some(s[i..e]) else None
    else None
  }

  /** A match is a non-empty whole word at `i` that white space and a
      keyword follow. */
  lemma TriggerNameAtShape(s: string, i: nat)
    requires i < |s|
    ensures var r := TriggerNameAt(s, i);
      r.Some? ==> |r.value| > 0 && forall j :: 0 <= j < |r.value| ==> IsWordChar(r.value[j])
    ensures var r := TriggerNameAt(s, i);
      r.Some? ==> OccursAt(s, r.value, i) && (i == 0 || !IsWordChar(s[i - 1]))
    ensures var r := TriggerNameAt(s, i);
      r.Some? ==> var e := i + |r.value|;
      e < |s| && !IsWordChar(s[e]) && RunEnd(s, e, Space) > e && TriggerKeywordAt(s, RunEnd(s, e, Space))
  {
  }

  /** The first match at or after `i`, or "" when there is none. */
  function FirstTriggerName(s: string, i: nat): string
    decreases |s| - i
  {
    if i >= |s| then ""
    else match TriggerNameAt(s, i)
      case Some(n) => n
      case None => FirstTriggerName(s, i + 1)
  }

  /** GetTriggerName: the first match in the block with its double quotes removed. */
  function TriggerName(block: string): string {
    FirstTriggerName(Replace(block, "\"", ""), 0)
  }

  /** GetBlockName. */
  function BlockName(block: string, t: BlockType): Result<string> {
    match t
    case Index => IndexName(block)
    case Trigger => Ok(TriggerName(block))
    case _ => Ok(Trim(Split(Replace(block, "$", "_"), "\r\n")[0]))
  }

  /** The key a block is filed under: its name upper-cased, without double
      quotes and without the upper-cased schema prefix. */
  function BlockKey(name: string, schema: string): string {
    Replace(Replace(ToUpper(name), "\"", ""), ToUpper(schema) + ".", "")
  }

  // ---------------------------------------------------------------- bodies

  /** GetBlockCleaned: from the first "CREATE " up to the last ';', plus ';'. */
  function CleanedBlock(block: string): Result<string> {
    var c := IndexOf(block, "CREATE ");
    match Substring(block, c, LastIndexOf(block, ';') - c)
    case Err(e) => Err(e)
    case Ok(x) => Ok(x + ";")
  }

  /** One block: the name is taken before the body is cleaned. */
  function MakeBlock(b: string, t: BlockType, schema: string): Result<Block> {
    match BlockName(b, t)
    case Err(e) => Err(e)
    case Ok(name) =>
      match CleanedBlock(b)
      case Err(e) => Err(e)
      case Ok(body) => Ok(Block(BlockKey(name, schema), Trim(body)))
  }

  /** Every block in order; the first failure is the one raised. */
  function MakeBlocks(bs: seq<string>, t: BlockType, schema: string): (r: Result<seq<Block>>)
    ensures r.Ok? ==> |r.value| == |bs|
    ensures r.Ok? ==> forall k :: 0 <= k < |bs| ==> MakeBlock(bs[k], t, schema) == Ok(r.value[k])
  {
    hide MakeBlock;
    if |bs| == 0 then Ok([])
    else
      match MakeBlocks(bs[..|bs| - 1], t, schema)
      case Err(e) => Err(e)
      case Ok(init) =>
        match MakeBlock(bs[|bs| - 1], t, schema)
        case Err(e) => Err(e)
        case Ok(b) =>
          MakeBlocksExtend(bs, init, b, t, schema);
          Ok(init + [b])
  }

  /** One more block made: the blocks so far, then the new one. */
  lemma MakeBlocksExtend(bs: seq<string>, init: seq<Block>, b: Block, t: BlockType, schema: string)
    requires |bs| > 0 && |init| == |bs| - 1
    requires forall k :: 0 <= k < |bs| - 1 ==> MakeBlock(bs[..|bs| - 1][k], t, schema) == Ok(init[k])
    requires MakeBlock(bs[|bs| - 1], t, schema) == Ok(b)
    ensures forall k :: 0 <= k < |bs| ==> MakeBlock(bs[k], t, schema) == Ok((init + [b])[k])
  {
    hide MakeBlock;
    forall k | 0 <= k < |bs| ensures MakeBlock(bs[k], t, schema) == Ok((init + [b])[k]) {
      if k < |bs| - 1 {
        assert bs[..|bs| - 1][k] == bs[k];
      }
    }
  }

  /** The fragments that become blocks: all but the first and the last, then
      the first non-blank piece of the last one cut on the generic "DDL for ". */
  function BlockSources(raw: seq<string>): (r: Result<seq<string>>)
    requires |raw| > 0
  {
    var middle := if |raw| >= 2 then raw[1..|raw| - 1] else [];
    var tail := NonBlank(SplitOnMarker(raw[|raw| - 1], BlockPrefix + " "));
    if |tail| == 0 then Err(InvalidOperation("Enumerable.First")) else Ok(middle + [tail[0]])
  }

  /** ExtractBlockScripts: the blocks of type `t` and the remainder it leaves
      in the threaded script (the last fragment). An all-blank script has no
      fragment and Last() throws. */
  function BlockScripts(script: string, t: BlockType, schema: string): Result<(seq<Block>, string)> {
    var raw := Fragments(script, t);
    if |raw| == 0 then Err(InvalidOperation("Enumerable.Last"))
    else
      match BlockSources(raw)
      case Err(e) => Err(e)
      case Ok(sources) =>
        match MakeBlocks(sources, t, schema)
        case Err(e) => Err(e)
        case Ok(blocks) => Ok((blocks, raw[|raw| - 1]))
  }

  /** ExtractBlockScripts, computing the blocks one by one. */
  method ExtractBlockScripts(script: string, t: BlockType, schema: string) returns (r: Result<seq<Block>>, rest: string)
    ensures r.Ok? <==> BlockScripts(script, t, schema).Ok?
    ensures r.Ok? ==> (r.value, rest) == BlockScripts(script, t, schema).value
    ensures r.Err? ==> BlockScripts(script, t, schema) == Err(r.error)
  {
    hide MakeBlock, Fragments, BlockSources;
    var raw := Fragments(script, t);
    if |raw| == 0 {
      return Err(InvalidOperation("Enumerable.Last")), script;
    }
    rest := raw[|raw| - 1];
    var sourcesOrError := BlockSources(raw);
    if sourcesOrError.Err? {
      return Err(sourcesOrError.error), rest;
    }
    var sources := sourcesOrError.value;
    var blocks: seq<Block> := [];
    var i := 0;
    while i < |sources|
      invariant 0 <= i <= |sources|
      invariant MakeBlocks(sources[..i], t, schema) == Ok(blocks)
    {
      var b := MakeBlock(sources[i], t, schema);
      MakeBlocksStep(sources, i, t, schema);
      if b.Err? {
        MakeBlocksPrefixError(sources, i + 1, t, schema);
        return Err(b.error), rest;
      }
      blocks := blocks + [b.value];
      i := i + 1;
    }
    assert sources[..i] == sources;
    r := Ok(blocks);
  }

  lemma MakeBlocksStep(bs: seq<string>, i: nat, t: BlockType, schema: string)
    requires i < |bs| && MakeBlocks(bs[..i], t, schema).Ok?
    ensures var b := MakeBlock(bs[i], t, schema);
      MakeBlocks(bs[..i + 1], t, schema)
        == if b.Err? then Err(b.error) else Ok(MakeBlocks(bs[..i], t, schema).value + [b.value])
  {
    assert bs[..i + 1][..i] == bs[..i] && bs[..i + 1][i] == bs[i];
  }

  /** A failure among the first blocks is the failure of the whole list. */
  lemma {:induction false} MakeBlocksPrefixError(bs: seq<string>, n: nat, t: BlockType, schema: string)
    requires n <= |bs| && MakeBlocks(bs[..n], t, schema).Err?
    ensures MakeBlocks(bs, t, schema) == MakeBlocks(bs[..n], t, schema)
    decreases |bs| - n
  {
    if n < |bs| {
      assert bs[..n + 1][..n] == bs[..n];
      MakeBlocksPrefixError(bs, n + 1, t, schema);
    } else {
      assert bs[..n] == bs;
    }
  }
  // ---------------------------------------------------------------- properties

  /** The trigger name is the first whole word that white space and a
      keyword follow, or "" when no word is followed so. */
  lemma {:induction false} FirstTriggerNameIsFirst(s: string, i: nat) returns (j: nat)
    ensures FirstTriggerName(s, i) == "" ==> forall k :: i <= k < |s| ==> TriggerNameAt(s, k).None?
    ensures FirstTriggerName(s, i) != "" ==>
      i <= j < |s| && TriggerNameAt(s, j) == Some(FirstTriggerName(s, i))
      && forall k :: i <= k < j ==> TriggerNameAt(s, k).None?
    decreases |s| - i
  {
    hide TriggerNameAt;
    if i < |s| && TriggerNameAt(s, i).None? {
      j := FirstTriggerNameIsFirst(s, i + 1);
    } else {
      if i < |s| {
        TriggerNameAtShape(s, i);
      }
      j := i;
    }
  }

  /** A table or view name is the block, '$' mapped to '_', up to its first
      CR LF, trimmed. */
  lemma TableNameValue(block: string, t: BlockType)
    requires t == Table || t == View
    ensures var u := Replace(block, "$", "_"); var i := IndexOf(u, "\r\n");
      BlockName(block, t).value == Trim(if i < 0 then u else u[..i])
  {
    hide Trim, Replace, IndexName, TriggerName, IndexOf;
    SplitFirst(Replace(block, "$", "_"), "\r\n");
  }

  /** Table and view names are one trimmed line, with '$' mapped to '_'. */
  lemma TableNameShape(block: string, t: BlockType)
    requires t == Table || t == View
    ensures var name := BlockName(block, t).value;
      '$' !in name && !Contains(name, "\r\n") && (|name| > 0 ==> !IsWhiteSpace(name[0]) && !IsWhiteSpace(name[|name| - 1]))
  {
    hide Trim, Split, Replace, IndexName, TriggerName;
    var u := Replace(block, "$", "_");
    ReplaceRemovesChar(block, '$', "_");
    var line := Split(u, "\r\n")[0];
    assert BlockName(block, t).value == Trim(line);
    SplitFirstIsPrefix(u, "\r\n");
    SplitPiecesFree(u, "\r\n");
    assert '$' !in line by {
      assert forall c :: c in line ==> c in u;
    }
    var a, b := TrimSlice(line);
    assert forall c :: c in line[a..b] ==> c in line;
    if Contains(line[a..b], "\r\n") {
      ContainsInSlice(line, a, b, "\r\n");
    }
  }

  /** Every key is upper-cased and free of double quotes. */
  lemma BlockKeyShape(name: string, schema: string)
    ensures IsUpperCased(BlockKey(name, schema)) && '"' !in BlockKey(name, schema)
  {
    var u := ToUpper(name);
    assert IsUpperCased(u);
    ReplaceKeepsUpperCased(u, "\"");
    var v := Replace(u, "\"", "");
    ReplaceKeepsUpperCased(v, ToUpper(schema) + ".");
    ReplaceRemovesChar(u, '"', "");
    ReplaceChars(v, ToUpper(schema) + ".", "", '"');
  }

  /** A body runs from the first "CREATE " to the last ';' inclusive; with no
      "CREATE ", or no ';' after it, GetBlockCleaned throws. */
  lemma CleanedBlockShape(block: string)
    ensures var c := IndexOf(block, "CREATE "); var semi := LastIndexOf(block, ';');
      && (CleanedBlock(block).Ok? <==> 0 <= c <= semi)
      && (CleanedBlock(block).Ok? ==>
            CleanedBlock(block).value == block[c..semi + 1]
            && StartsWith(CleanedBlock(block).value, "CREATE ")
            && EndsWith(CleanedBlock(block).value, ";"))
  {
    hide IndexOf, LastIndexOf, Substring;
    var c := IndexOf(block, "CREATE ");
    var semi := LastIndexOf(block, ';');
    if 0 <= c <= semi {
      SemicolonAfterCreate(block, c, semi);
      var x := block[c..semi];
      assert CleanedBlock(block) == Ok(x + ";");
      assert x + ";" == block[c..semi + 1];
      assert (x + ";")[..7] == block[c..c + 7] == "CREATE ";
    }
  }

  /** The last ';' cannot fall inside the "CREATE " it follows. */
  lemma SemicolonAfterCreate(block: string, c: nat, semi: nat)
    requires OccursAt(block, "CREATE ", c) && c <= semi < |block| && block[semi] == ';'
    ensures semi >= c + 7
  {
    forall j | c <= j < c + 7 ensures block[j] != ';' {
      assert block[j] == block[c..c + 7][j - c];
    }
  }

  /** Every block made: its key is upper-cased without double quotes and its
      body starts with "CREATE " and ends with ';'. */
  lemma MakeBlockShape(b: string, t: BlockType, schema: string)
    requires MakeBlock(b, t, schema).Ok?
    ensures var blk := MakeBlock(b, t, schema).value;
      && IsUpperCased(blk.key) && '"' !in blk.key
      && StartsWith(blk.body, "CREATE ") && EndsWith(blk.body, ";")
      && blk.body == CleanedBlock(b).value
  {
    hide BlockName, CleanedBlock, BlockKey, Trim;
    var name := BlockName(b, t).value;
    var body := CleanedBlock(b).value;
    assert MakeBlock(b, t, schema).value == Block(BlockKey(name, schema), Trim(body));
    BlockKeyShape(name, schema);
    CleanedBlockShape(b);
    assert body[0] == body[..7][0] == 'C';
    assert body[|body| - 1] == ';';
    TrimIdentity(body);
  }

  /** A script that is all white space has no fragment: Last() throws. */
  lemma BlankScriptFails(script: string, t: BlockType, schema: string)
    requires IsBlank(script)
    ensures BlockScripts(script, t, schema).Err?
  {
    var m := Marker(t);
    forall j ensures !OccursAt(script, m, j) {
      if 0 <= j < |script| {
        assert IsWhiteSpace(script[j]);
      }
    }
    assert SplitOnMarker(script, m) == [script];
    assert NonBlank([script]) == [];
  }

  /** ExtractBlockScripts: with n non-blank fragments, the remainder is the
      last one and there are n - 1 blocks (the first fragment is dropped),
      or one block when n is 1; the blocks before the last come from the
      middle fragments in order (BlockScriptsLast gives the last one), and
      every block is well formed. */
  lemma BlockScriptsShape(script: string, t: BlockType, schema: string)
    requires BlockScripts(script, t, schema).Ok?
    ensures var raw := Fragments(script, t); var (blocks, rest) := BlockScripts(script, t, schema).value;
      && |raw| >= 1 && rest == raw[|raw| - 1]
      && |blocks| == (if |raw| >= 2 then |raw| - 1 else 1)
      && (forall k :: 0 <= k < |raw| - 2 ==> MakeBlock(raw[k + 1], t, schema) == Ok(blocks[k]))
      && (forall k :: 0 <= k < |blocks| ==>
            IsUpperCased(blocks[k].key) && '"' !in blocks[k].key
            && StartsWith(blocks[k].body, "CREATE ") && EndsWith(blocks[k].body, ";"))
  {
    hide MakeBlock;
    var raw := Fragments(script, t);
    var sources := BlockSources(raw).value;
    var blocks := BlockScripts(script, t, schema).value.0;
    assert |sources| == (if |raw| >= 2 then |raw| - 1 else 1);
    forall k | 0 <= k < |blocks|
      ensures IsUpperCased(blocks[k].key) && '"' !in blocks[k].key
      ensures StartsWith(blocks[k].body, "CREATE ") && EndsWith(blocks[k].body, ";")
    {
      MakeBlockShape(sources[k], t, schema);
    }
  }

  /** ExtractBlockScripts: the last block comes from the remainder, cut
      again on the generic "DDL for ", whose first non-blank piece it is
      made from. */
  lemma BlockScriptsLast(script: string, t: BlockType, schema: string)
    requires BlockScripts(script, t, schema).Ok?
    ensures var (blocks, rest) := BlockScripts(script, t, schema).value;
      var tail := NonBlank(SplitOnMarker(rest, BlockPrefix + " "));
      |tail| > 0 && |blocks| > 0 && MakeBlock(tail[0], t, schema) == Ok(blocks[|blocks| - 1])
  {
    hide MakeBlock, MakeBlocks, Fragments, SplitOnMarker, NonBlank;
    var raw := Fragments(script, t);
    assert |raw| > 0;
    var sources := BlockSources(raw).value;
    var blocks := MakeBlocks(sources, t, schema).value;
    assert BlockScripts(script, t, schema).value == (blocks, raw[|raw| - 1]);
    var tail := NonBlank(SplitOnMarker(raw[|raw| - 1], BlockPrefix + " "));
    assert |tail| > 0 && sources[|sources| - 1] == tail[0];
    assert MakeBlock(sources[|sources| - 1], t, schema) == Ok(blocks[|sources| - 1]);
  }

  lemma BlockScriptsRest(script: string, t: BlockType, schema: string)
    requires BlockScripts(script, t, schema).Ok?
    ensures |Fragments(script, t)| >= 1
    ensures BlockScripts(script, t, schema).value.1 == Fragments(script, t)[|Fragments(script, t)| - 1]
  {
    hide MakeBlock;
  }

  /** Text in a piece of a marker split is text of the whole. */
  lemma {:induction false} SplitOnMarkerWithin(s: string, marker: string, k: nat, p: string)
    requires marker != [] && k < |SplitOnMarker(s, marker)| && Contains(SplitOnMarker(s, marker)[k], p)
    ensures Contains(s, p)
    decreases |s|
  {
    var i := IndexOf(s, marker);
    if i >= 0 {
      var e := RunEnd(s, i + |marker|, Space);
      var pieces := SplitOnMarker(s[e..], marker);
      assert SplitOnMarker(s, marker) == [s[..i]] + pieces;
      if k == 0 {
        assert s[..i] == s[0..i];
        ContainsInSlice(s, 0, i, p);
      } else {
        assert SplitOnMarker(s, marker)[k] == pieces[k - 1];
        SplitOnMarkerWithin(s[e..], marker, k - 1, p);
        assert s[e..|s|] == s[e..];
        ContainsInSlice(s, e, |s|, p);
      }
    } else {
      assert SplitOnMarker(s, marker) == [s];
    }
  }

  /** The remainder ExtractBlockScripts leaves is part of the script it was given. */
  lemma RemainderWithin(script: string, t: BlockType, schema: string, p: string)
    requires BlockScripts(script, t, schema).Ok? && Contains(BlockScripts(script, t, schema).value.1, p)
    ensures Contains(script, p)
  {
    BlockScriptsRest(script, t, schema);
    LastFragmentWithin(script, t, p);
  }

  lemma LastFragmentWithin(script: string, t: BlockType, p: string)
    requires |Fragments(script, t)| > 0 && Contains(Fragments(script, t)[|Fragments(script, t)| - 1], p)
    ensures Contains(script, p)
  {
    hide SplitOnMarker, NonBlank, Contains;
    var parts := SplitOnMarker(script, Marker(t));
    var raw := NonBlank(parts);
    assert Fragments(script, t) == raw;
    var rest := raw[|raw| - 1];
    assert rest in parts;
    var k :| 0 <= k < |parts| && parts[k] == rest;
    SplitOnMarkerWithin(script, Marker(t), k, p);
  }
}
