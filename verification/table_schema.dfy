/** The table part of ProcessEntities.cs: the columns of a CREATE TABLE
    block, the column comments that follow it, and the TableEntity built
    from both. */
module TableSchema {
  import opened Wrappers
  import opened Strings
  import opened Dictionaries
  import opened TableProperties
  import opened TextUtils
  import opened TableEntities

  /** A parsed column: its SQL type and its length text ("" when it has none). */
  datatype Column = Column(sqlType: string, length: string)

  // ---------------------------------------------------------------- columns

  /** The text strictly between the first '(' and the last ')':
      Substring(open + 1, close - open - 1). It throws unless the last ')'
      comes after the first '(', or there is a ')' and no '('. */
  function ColumnRegion(script: string): (r: Result<string>)
    ensures var open := IndexOf(script, "("); var close := LastIndexOf(script, ')');
      r.Ok? <==> open < close
    ensures var open := IndexOf(script, "("); var close := LastIndexOf(script, ')');
      r.Ok? ==> r.value == script[open + 1..close]
  {
    var open := IndexOf(script, "(");
    var close := LastIndexOf(script, ')');
    Substring(script, open + 1, close - open - 1)
  }

  /** A line that ends the column list: blank, or starting with ')' once trimmed. */
  predicate EndsColumnList(line: string) {
    Trim(line) == "" || StartsWith(Trim(line), ")")
  }

  predicate IsDateOrNumber(ty: string) {
    StartsWith(ty, "DATE") || StartsWith(ty, "NUMBER")
  }

  /** A DATE or NUMBER type with a space in it is cut before the space and
      trimmed: what is left is one token that keeps its DATE or NUMBER
      prefix. Other types are kept. */
  function CutDateNumber(ty: string): (r: string)
    ensures IsDateOrNumber(ty) ==> IsDateOrNumber(r) && ' ' !in r
    ensures !IsDateOrNumber(ty) ==> r == ty
  {
    if IsDateOrNumber(ty) && Contains(ty, " ") then
      var sp := IndexOf(ty, " ");
      var w := if StartsWith(ty, "DATE") then "DATE" else "NUMBER";
      TypeWordsNotBlank();
      CutKeepsLead(ty, sp, w);
      Trim(ty[..sp])
    else
      ContainsChar(ty, ' ');
      ty
  }

  lemma TypeWordsNotBlank()
    ensures forall j :: 0 <= j < |"DATE"| ==> !IsWhiteSpace("DATE"[j])
    ensures forall j :: 0 <= j < |"NUMBER"| ==> !IsWhiteSpace("NUMBER"[j])
  {
  }

  /** Cutting before the first space and trimming keeps a lead word without white space. */
  lemma CutKeepsLead(ty: string, sp: int, w: string)
    requires StartsWith(ty, w) && forall j :: 0 <= j < |w| ==> !IsWhiteSpace(w[j])
    requires sp == IndexOf(ty, " ") && sp >= 0
    ensures StartsWith(Trim(ty[..sp]), w) && ' ' !in Trim(ty[..sp])
  {
    hide Trim;
    var n := |w|;
    assert ty[..n] == w;
    assert ty[sp] == ' ' by {
      assert ty[sp..sp + 1] == " ";
    }
    forall j | 0 <= j < n ensures ty[j] != ' ' {
      assert ty[j] == w[j];
    }
    assert n <= sp;
    var x := ty[..sp];
    BeforeFirst(ty, ' ');
    assert ' ' !in x;
    assert x[..n] == w;
    forall j | 0 <= j < n ensures !IsWhiteSpace(x[j]) {
      assert x[j] == w[j];
    }
    TrimKeepsLead(x, n);
    var t := Trim(x);
    assert t[..n] == w;
    assert StartsWith(t, w);
  }

  /** Trim keeps a lead of non-white-space characters, and adds no character. */
  lemma TrimKeepsLead(x: string, n: nat)
    requires n <= |x| && forall j :: 0 <= j < n ==> !IsWhiteSpace(x[j])
    ensures n <= |Trim(x)| && Trim(x)[..n] == x[..n]
    ensures forall c :: c in Trim(x) ==> c in x
  {
    var a, b := TrimSlice(x);
    if n > 0 {
      assert a == 0;
      assert !IsWhiteSpace(x[n - 1]);
      assert b >= n;
    }
  }

  /** One column line: the first space-separated token, without double quotes
      and trimmed, is the name; the rest of the line (the line with every
      occurrence of that token removed) gives the type and the length. */
  function ParseColumn(tableName: string, line: string): (r: Result<(string, Column)>)
    ensures Split(line, " ")[0] == [] ==> r.Err?
    ensures r.Ok? ==> r.value.0 != tableName
    ensures r.Ok? && '"' !in tableName ==> '"' !in r.value.0
    ensures r.Ok? ==> '"' !in r.value.1.sqlType
  {
    var token := Split(line, " ")[0];
    var name := Trim(Replace(token, "\"", ""));
    if token == [] then Err(Argument("String.Replace"))
    else
      var dataType := Replace(line, token, "");
      var typeAndLength: Result<(string, string)> :=
        if Contains(dataType, "(") then
          var open := IndexOf(dataType, "(");
          match Substring(dataType, open + 1, IndexOf(dataType, ")") - open - 1)
          case Err(e) => Err(e)
          case Ok(inner) => Ok((Trim(dataType[..open]), Replace(inner, " BYTE", "")))
        else Ok((Replace(Trim(dataType), ",", ""), ""));
      match typeAndLength
      case Err(e) => Err(e)
      case Ok((ty, length)) =>
        var key := if name == tableName then tableName + "_" + name else name;
        var sqlType := Replace(CutDateNumber(ty), "\"", "");
        ReplaceRemovesChar(CutDateNumber(ty), '"', "");
        UnquotedName(token, tableName);
        Ok((key, Column(sqlType, length)))
  }

  /** The key of a column is its name (the first token, unquoted and
      trimmed); only a name equal to the table's gets the table name and
      "_" prepended. */
  lemma ColumnKeyRule(tableName: string, line: string)
    requires ParseColumn(tableName, line).Ok?
    ensures var name := Trim(Replace(Split(line, " ")[0], "\"", ""));
      name != tableName ==> ParseColumn(tableName, line).value.0 == name
    ensures var name := Trim(Replace(Split(line, " ")[0], "\"", ""));
      name == tableName ==> ParseColumn(tableName, line).value.0 == tableName + "_" + tableName
  {
    hide Trim, Replace, Split, CutDateNumber, Substring, IndexOf, Contains;
  }

  lemma UnquotedName(token: string, tableName: string)
    ensures var name := Trim(Replace(token, "\"", ""));
      '"' !in name && ('"' !in tableName ==> '"' !in tableName + "_" + name)
  {
    var u := Replace(token, "\"", "");
    ReplaceRemovesChar(token, '"', "");
    var a, b := TrimSlice(u);
    assert forall c :: c in u[a..b] ==> c in u;
  }

  /** The index of the first line that ends the column list, or the number of lines. */
  function StopIndex(lines: seq<string>): (n: nat)
    ensures n <= |lines|
    ensures forall k :: 0 <= k < n ==> !EndsColumnList(lines[k])
    ensures n < |lines| ==> EndsColumnList(lines[n])
  {
    if |lines| == 0 || EndsColumnList(lines[0]) then 0 else 1 + StopIndex(lines[1..])
  }

  /** Each line parsed as a column. */
  function ParseColumns(tableName: string, lines: seq<string>): (ps: seq<Result<(string, Column)>>)
    ensures |ps| == |lines| && forall i :: 0 <= i < |lines| ==> ps[i] == ParseColumn(tableName, lines[i])
  {
    seq(|lines|, i requires 0 <= i < |lines| => ParseColumn(tableName, lines[i]))
  }

  /** properties[name] = (type, length) for each parsed line in turn; the
      first line that fails to parse fails the whole. */
  function PutColumns(ps: seq<Result<(string, Column)>>): (r: Result<seq<Entry<Column>>>)
    ensures r.Ok? ==> DistinctKeys(r.value)
  {
    if |ps| == 0 then Ok([])
    else
      match PutColumns(ps[..|ps| - 1])
      case Err(e) => Err(e)
      case Ok(m) =>
        match ps[|ps| - 1]
        case Err(e) => Err(e)
        case Ok((key, column)) => Ok(Put(m, key, column))
  }

  /** ExtractTableProperties: the columns of a table script, in the order
      their names first appear. */
  function TableColumns(tableName: string, script: string): Result<seq<Entry<Column>>> {
    match ColumnRegion(script)
    case Err(e) => Err(e)
    case Ok(region) => PutColumns(ParseColumns(tableName, ColumnLines(region)))
  }

  /** The lines of the column list: those before the first line that ends it. */
  function ColumnLines(region: string): (ls: seq<string>)
    ensures forall k :: 0 <= k < |ls| ==> !EndsColumnList(ls[k])
  {
    var lines := Split(region, "\n");
    lines[..StopIndex(lines)]
  }

  lemma PutColumnsStep(ps: seq<Result<(string, Column)>>, i: nat)
    requires i < |ps| && PutColumns(ps[..i]).Ok?
    ensures PutColumns(ps[..i + 1])
      == if ps[i].Err? then Err(ps[i].error) else Ok(Put(PutColumns(ps[..i]).value, ps[i].value.0, ps[i].value.1))
  {
    assert ps[..i + 1][..i] == ps[..i];
  }

  /** A failing line makes every longer list of lines fail the same way. */
  lemma {:induction false} PutColumnsPrefixError(ps: seq<Result<(string, Column)>>, n: nat, m: nat)
    requires n <= m <= |ps| && PutColumns(ps[..n]).Err?
    ensures PutColumns(ps[..m]) == PutColumns(ps[..n])
    decreases m - n
  {
    if n < m {
      assert ps[..n + 1][..n] == ps[..n];
      PutColumnsPrefixError(ps, n + 1, m);
    }
  }

  /** ExtractTableProperties, line by line. */
  method ExtractTableProperties(tableName: string, script: string) returns (r: Result<seq<Entry<Column>>>)
    ensures r == TableColumns(tableName, script)
  {
    var region := ColumnRegion(script);
    if region.Err? {
      return Err(region.error);
    }
    var lines := Split(region.value, "\n");
    var stop := StopIndex(lines);
    ghost var ps := ParseColumns(tableName, ColumnLines(region.value));
    var properties: seq<Entry<Column>> := [];
    var i := 0;
    while i < |lines| && !EndsColumnList(lines[i])
      invariant i <= stop
      invariant PutColumns(ps[..i]) == Ok(properties)
    {
      var column := ParseColumn(tableName, lines[i]);
      assert column == ps[i];
      PutColumnsStep(ps, i);
      if column.Err? {
        PutColumnsPrefixError(ps, i + 1, stop);
        assert ps[..stop] == ps;
        return Err(column.error);
      }
      properties := Put(properties, column.value.0, column.value.1);
      i := i + 1;
    }
    assert i == stop && ps[..stop] == ps;
    r := Ok(properties);
  }

  // ---------------------------------------------------------------- comments

  const CommentLead := "COMMENT ON COLUMN "

  /** The first occurrence of a one-character pattern bounds a run without it. */
  lemma BeforeFirst(s: string, c: char)
    requires IndexOf(s, [c]) >= 0
    ensures c !in s[..IndexOf(s, [c])]
  {
    var i := IndexOf(s, [c]);
    forall j | 0 <= j < i ensures s[j] != c {
      assert !OccursAt(s, [c], j);
      assert s[j..j + 1] == [s[j]];
    }
  }

  // A match of COMMENT ON COLUMN (.*?)\.(.*?)\.(.*?) IS '(.*?)' at `p`, '.'
  // matching anything but '\n', so the whole match lies on one line. Each
  // lazy group ends at the first place where what follows it can match: the
  // first '.', the next '.', the first " IS '" after that and the first '\''
  // after it. Taking any of them later only moves the later ones further, so
  // when these fail every other choice fails too. The result is the third
  // and fourth groups and the end of the match.
  function CommentAt(s: string, p: nat): (r: Option<(string, string, nat)>)
    requires p <= |s|
    ensures r.Some? ==> p < r.value.2 <= |s|
    ensures r.Some? ==> '\n' !in r.value.0 && '\'' !in r.value.1 && '\n' !in r.value.1
    ensures r.Some? ==> forall c :: c in r.value.0 ==> c in s
  {
    if !OccursAt(s, CommentLead, p) then None
    else
      var q := p + |CommentLead|;
      var line := s[q..LineEnd(s, q)];
      assert '\n' !in line;
      assert forall c :: c in line ==> c in s;
      match CommentInLine(line)
      case None => None
      case Some((column, comment, e)) => Some((column, comment, q + e))
  }

  /** The groups after the lead, within one line: the column is what follows
      the second '.', the match ends after the closing quote (offset `e`). */
  function CommentInLine(line: string): (r: Option<(string, string, nat)>)
    ensures r.Some? ==> r.value.2 <= |line| && '\'' !in r.value.1
    ensures r.Some? ==> (forall c :: c in r.value.0 ==> c in line) && (forall c :: c in r.value.1 ==> c in line)
  {
    var d1 := IndexOf(line, ".");
    if d1 < 0 then None
    else
      var d2 := IndexOf(line[d1 + 1..], ".");
      if d2 < 0 then None
      else
        var g3 := d1 + 1 + d2 + 1;
        match QuotedComment(line[g3..])
        case None => None
        case Some((column, comment, e)) => Some((column, comment, g3 + e))
  }

  /** The column up to the first " IS '", then the comment up to the next '\''. */
  function QuotedComment(t: string): (r: Option<(string, string, nat)>)
    ensures r.Some? ==> r.value.2 <= |t| && '\'' !in r.value.1
    ensures r.Some? ==> (forall c :: c in r.value.0 ==> c in t) && (forall c :: c in r.value.1 ==> c in t)
  {
    var isAt := IndexOf(t, " IS '");
    if isAt < 0 then None
    else
      var g4 := isAt + 5;
      var close := IndexOf(t[g4..], "'");
      if close < 0 then None
      else
        BeforeFirst(t[g4..], '\'');
        assert t[g4..][..close] == t[g4..g4 + close];
        Some((t[..isAt], t[g4..g4 + close], g4 + close + 1))
  }

  /** Regex.Matches: every match from `i` on, each search resuming where the
      previous match ended. */
  function CommentMatches(s: string, i: nat): (ms: seq<(string, string)>)
    requires i <= |s|
    ensures forall k :: 0 <= k < |ms| ==> '\n' !in ms[k].0 && '\'' !in ms[k].1
    ensures forall k, c :: 0 <= k < |ms| && c in ms[k].0 ==> c in s
    decreases |s| - i
  {
    if i == |s| then []
    else
      match CommentAt(s, i)
      case Some((column, comment, e)) => [(column, comment)] + CommentMatches(s, e)
      case None => CommentMatches(s, i + 1)
  }

  /** comments[column] = comment with '\'' removed, for each match in turn. */
  function CommentMap(ms: seq<(string, string)>): map<string, string> {
    if |ms| == 0 then map[]
    else CommentMap(ms[..|ms| - 1])[ms[|ms| - 1].0 := Replace(ms[|ms| - 1].1, "'", "")]
  }

  /** ExtractTableComments: the comments of the script with its double quotes removed. */
  function TableComments(script: string): map<string, string> {
    var text := Replace(script, "\"", "");
    CommentMap(CommentMatches(text, 0))
  }

  /** ExtractTableComments, match by match. */
  method ExtractTableComments(script: string) returns (comments: map<string, string>)
    ensures comments == TableComments(script)
  {
    var text := Replace(script, "\"", "");
    var matches := CommentMatches(text, 0);
    comments := map[];
    for i := 0 to |matches|
      invariant comments == CommentMap(matches[..i])
    {
      assert matches[..i + 1][..i] == matches[..i];
      comments := comments[matches[i].0 := Replace(matches[i].1, "'", "")];
    }
    assert matches[..|matches|] == matches;
  }

  // ---------------------------------------------------------------- entity

  /** A column as a TableProperty, with the comment filed under its name when there is one. */
  function Property(c: Entry<Column>, comments: map<string, string>): TableProperty {
    NewTableProperty(c.key, c.value.sqlType, Some(c.value.length),
                     if c.key in comments then Some(comments[c.key]) else None)
  }

  /** The columns as TableProperty values, in column order. */
  function Properties(columns: seq<Entry<Column>>, comments: map<string, string>): (ps: seq<TableProperty>)
    ensures |ps| == |columns| && forall k :: 0 <= k < |columns| ==> ps[k] == Property(columns[k], comments)
  {
    seq(|columns|, k requires 0 <= k < |columns| => Property(columns[k], comments))
  }

  /** ExtractTableInformation. */
  function TableInformation(tableName: string, script: string, indexes: seq<string>, triggers: seq<string>): Result<TableEntity> {
    match TableColumns(tableName, script)
    case Err(e) => Err(e)
    case Ok(columns) =>
      Ok(NewTableEntity(tableName, Properties(columns, TableComments(script)), indexes, triggers, script))
  }

  /** ExtractTableInformation, building the property list column by column. */
  method ExtractTableInformation(tableName: string, script: string, indexes: seq<string>, triggers: seq<string>)
    returns (r: Result<TableEntity>)
    ensures r == TableInformation(tableName, script, indexes, triggers)
  {
    hide TableColumns, TableComments, RemoveEmptyLines;
    var columns := ExtractTableProperties(tableName, script);
    if columns.Err? {
      return Err(columns.error);
    }
    var comments := ExtractTableComments(script);
    var props: seq<TableProperty> := [];
    for i := 0 to |columns.value|
      invariant props == Properties(columns.value[..i], comments)
    {
      var c := columns.value[i];
      var comment := if c.key in comments then Some(comments[c.key]) else None;
      props := props + [NewTableProperty(c.key, c.value.sqlType, Some(c.value.length), comment)];
    }
    assert columns.value[..|columns.value|] == columns.value;
    r := Ok(NewTableEntity(tableName, props, indexes, triggers, script));
  }

  // ---------------------------------------------------------------- properties

  /** Every column becomes the property of its own name and type, with the
      comment filed under that name exactly when there is one, and a length
      exactly when the column's length text is a numeral. */
  lemma PropertiesOfColumns(columns: seq<Entry<Column>>, comments: map<string, string>)
    ensures var ps := Properties(columns, comments);
      |ps| == |columns| &&
      forall k :: 0 <= k < |columns| ==>
        && ps[k].name == columns[k].key && ps[k].sqlType == columns[k].value.sqlType
        && (ps[k].comment.Some? <==> columns[k].key in comments)
        && (columns[k].key in comments ==> ps[k].comment == Some(comments[columns[k].key]))
        && (ps[k].length.Some? <==> IsLengthNumeral(Trim(columns[k].value.length)))
        && (ps[k].length.Some? ==> ps[k].length == ParseLength(columns[k].value.length))
  {
  }

  /** The parse result names a column `key`. */
  predicate Names(p: Result<(string, Column)>, key: string) {
    p.Ok? && p.value.0 == key
  }

  /** properties[name] = ... line after line: every line parsed, and every
      parsed name is a key. */
  lemma {:induction false} PutColumnsParsed(ps: seq<Result<(string, Column)>>)
    requires PutColumns(ps).Ok?
    ensures forall i :: 0 <= i < |ps| ==> ps[i].Ok? && ps[i].value.0 in Keys(PutColumns(ps).value)
  {
    if |ps| > 0 {
      var n := |ps| - 1;
      var init := ps[..n];
      assert PutColumns(init).Ok? && ps[n].Ok?;
      var d0 := PutColumns(init).value;
      var d := PutColumns(ps).value;
      assert d == Put(d0, ps[n].value.0, ps[n].value.1);
      hide PutColumns, Put;
      PutColumnsParsed(init);
      assert forall x :: x in Keys(d0) ==> x in Keys(d);
      forall i | 0 <= i < n ensures ps[i].Ok? && ps[i].value.0 in Keys(d) {
        assert ps[i] == init[i];
      }
    }
  }

  /** Each entry holds the column of the LAST line with its name, so a
      repeated name overwrites the earlier one. */
  lemma {:induction false} PutColumnsLastWins(ps: seq<Result<(string, Column)>>)
    requires PutColumns(ps).Ok?
    ensures var d := PutColumns(ps).value;
      forall k :: 0 <= k < |d| ==> exists i :: (0 <= i < |ps| && ps[i] == Ok((d[k].key, d[k].value))
        && forall j :: i < j < |ps| ==> !Names(ps[j], d[k].key))
  {
    if |ps| > 0 {
      var n := |ps| - 1;
      var init := ps[..n];
      PutColumnsLastWins(init);
      var d0 := PutColumns(init).value;
      var d := PutColumns(ps).value;
      var key := ps[n].value.0;
      assert d == Put(d0, key, ps[n].value.1);
      forall k | 0 <= k < |d|
        ensures exists i :: (0 <= i < |ps| && ps[i] == Ok((d[k].key, d[k].value))
          && forall j :: i < j < |ps| ==> !Names(ps[j], d[k].key))
      {
        if d[k].key == key {
          assert ps[n] == Ok((d[k].key, d[k].value));
        } else {
          PutKeepsOthers(d0, key, ps[n].value.1, k);
          var i :| 0 <= i < n && init[i] == Ok((d0[k].key, d0[k].value))
            && forall j :: i < j < n ==> !Names(init[j], d0[k].key);
          LaterUnnamed(ps, init, i, d[k].key);
        }
      }
    }
  }

  lemma PutKeepsOthers<V>(d: seq<Entry<V>>, key: string, value: V, k: nat)
    requires DistinctKeys(d) && k < |Put(d, key, value)| && Put(d, key, value)[k].key != key
    ensures k < |d| && Put(d, key, value)[k] == d[k]
  {
    assert Keys(Put(d, key, value))[k] != key;
  }

  lemma LaterUnnamed(ps: seq<Result<(string, Column)>>, init: seq<Result<(string, Column)>>, i: nat, key: string)
    requires 0 < |ps| && init == ps[..|ps| - 1] && i < |init| && !Names(ps[|ps| - 1], key)
    requires forall j :: i < j < |init| ==> !Names(init[j], key)
    ensures forall j :: i < j < |ps| ==> !Names(ps[j], key)
  {
    forall j | i < j < |init| ensures !Names(ps[j], key) {
      assert init[j] == ps[j];
    }
  }

  /** The columns of a table: each is the parse of a line of the column list
      that no later line of the list overrides, none is named like the table
      (such a column gets the table name and "_" prepended), and no two share
      a name. */
  lemma TableColumnsShape(tableName: string, script: string)
    requires TableColumns(tableName, script).Ok?
    ensures var d := TableColumns(tableName, script).value;
      DistinctKeys(d) && forall k :: 0 <= k < |d| ==> d[k].key != tableName
    ensures var d := TableColumns(tableName, script).value;
      forall k :: 0 <= k < |d| ==> LastParseOf(tableName, ColumnLines(ColumnRegion(script).value), d[k])
  {
    hide ColumnRegion;
    var lines := ColumnLines(ColumnRegion(script).value);
    assert TableColumns(tableName, script) == PutColumns(ParseColumns(tableName, lines));
    ColumnsOfLines(tableName, lines);
  }

  /** The entry is the parse of some line of the list, and no later line
      parses to its name. */
  predicate LastParseOf(tableName: string, lines: seq<string>, e: Entry<Column>) {
    exists i :: 0 <= i < |lines| && ParseColumn(tableName, lines[i]) == Ok((e.key, e.value))
      && forall j :: i < j < |lines| ==> !Names(ParseColumn(tableName, lines[j]), e.key)
  }

  lemma ColumnsOfLines(tableName: string, lines: seq<string>)
    requires PutColumns(ParseColumns(tableName, lines)).Ok?
    ensures var d := PutColumns(ParseColumns(tableName, lines)).value;
      forall k :: 0 <= k < |d| ==> d[k].key != tableName
    ensures var d := PutColumns(ParseColumns(tableName, lines)).value;
      forall k :: 0 <= k < |d| ==> LastParseOf(tableName, lines, d[k])
  {
    hide PutColumns, Put;
    var ps := ParseColumns(tableName, lines);
    PutColumnsLastWins(ps);
    var d := PutColumns(ps).value;
    forall k | 0 <= k < |d|
      ensures d[k].key != tableName && LastParseOf(tableName, lines, d[k])
    {
      var i :| 0 <= i < |ps| && ps[i] == Ok((d[k].key, d[k].value))
        && forall j :: i < j < |ps| ==> !Names(ps[j], d[k].key);
      assert ParseColumn(tableName, lines[i]) == ps[i];
      forall j | i < j < |lines| ensures !Names(ParseColumn(tableName, lines[j]), d[k].key) {
        assert ParseColumn(tableName, lines[j]) == ps[j];
      }
    }
  }

  /** comments[name] = ... match after match: every matched column is a key. */
  lemma {:induction false} CommentMapKeys(ms: seq<(string, string)>)
    ensures forall i :: 0 <= i < |ms| ==> ms[i].0 in CommentMap(ms)
  {
    if |ms| > 0 {
      var n := |ms| - 1;
      var init := ms[..n];
      assert CommentMap(ms) == CommentMap(init)[ms[n].0 := Replace(ms[n].1, "'", "")];
      hide CommentMap, Replace;
      CommentMapKeys(init);
      forall i | 0 <= i < n ensures ms[i].0 in CommentMap(ms) {
        assert ms[i] == init[i];
      }
    }
  }

  /** Each key holds the comment of the LAST match for it, without '\''. */
  lemma {:induction false} CommentMapLastWins(ms: seq<(string, string)>)
    ensures forall key :: key in CommentMap(ms) ==> exists i :: (0 <= i < |ms| && ms[i].0 == key
      && CommentMap(ms)[key] == Replace(ms[i].1, "'", "")
      && forall j :: i < j < |ms| ==> ms[j].0 != key)
  {
    if |ms| > 0 {
      var n := |ms| - 1;
      var init := ms[..n];
      assert CommentMap(ms) == CommentMap(init)[ms[n].0 := Replace(ms[n].1, "'", "")];
      hide CommentMap, Replace;
      CommentMapLastWins(init);
      forall key | key in CommentMap(ms)
        ensures exists i :: (0 <= i < |ms| && ms[i].0 == key
          && CommentMap(ms)[key] == Replace(ms[i].1, "'", "")
          && forall j :: i < j < |ms| ==> ms[j].0 != key)
      {
        if key == ms[n].0 {
          assert CommentMap(ms)[key] == Replace(ms[n].1, "'", "");
        } else {
          assert key in CommentMap(init) && CommentMap(ms)[key] == CommentMap(init)[key];
          var i :| 0 <= i < n && init[i].0 == key && CommentMap(init)[key] == Replace(init[i].1, "'", "")
            && forall j :: i < j < n ==> init[j].0 != key;
          LaterOtherKeys(ms, init, i, key);
        }
      }
    }
  }

  lemma LaterOtherKeys(ms: seq<(string, string)>, init: seq<(string, string)>, i: nat, key: string)
    requires 0 < |ms| && init == ms[..|ms| - 1] && i < |init| && ms[|ms| - 1].0 != key
    requires forall j :: i < j < |init| ==> init[j].0 != key
    ensures ms[i] == init[i] && forall j :: i < j < |ms| ==> ms[j].0 != key
  {
    forall j | i < j < |init| ensures ms[j].0 != key {
      assert init[j] == ms[j];
    }
  }

  /** The comments found in a script: filed under column names without double
      quotes or line breaks, and with no '\'' left in them. */
  lemma TableCommentsShape(script: string)
    ensures forall key :: key in TableComments(script) ==> '"' !in key && '\n' !in key
    ensures forall key :: key in TableComments(script) ==> '\'' !in TableComments(script)[key]
  {
    var text := Replace(script, "\"", "");
    ReplaceRemovesChar(script, '"', "");
    var ms := CommentMatches(text, 0);
    CommentMapLastWins(ms);
    forall key | key in TableComments(script)
      ensures '"' !in key && '\n' !in key && '\'' !in TableComments(script)[key]
    {
      var i :| 0 <= i < |ms| && ms[i].0 == key && CommentMap(ms)[key] == Replace(ms[i].1, "'", "");
      ReplaceRemovesChar(ms[i].1, '\'', "");
    }
  }

  /** The entity of a table script: its properties are its columns in order,
      with distinct names none of which is the table's, and a property has a
      comment exactly when a comment was found under its name. It fails
      exactly when reading the columns fails. */
  lemma TableInformationShape(tableName: string, script: string, indexes: seq<string>, triggers: seq<string>)
    ensures TableInformation(tableName, script, indexes, triggers).Ok? <==> TableColumns(tableName, script).Ok?
    ensures TableInformation(tableName, script, indexes, triggers).Ok? ==>
      var e := TableInformation(tableName, script, indexes, triggers).value;
      var d := TableColumns(tableName, script).value;
      var comments := TableComments(script);
      e.name == tableName && e.indexes == indexes && |e.triggers| == |triggers| && |e.properties| == |d|
      && forall k :: 0 <= k < |d| ==>
        && e.properties[k].name == d[k].key != tableName
        && e.properties[k].sqlType == d[k].value.sqlType
        && (e.properties[k].comment.Some? <==> d[k].key in comments)
        && (d[k].key in comments ==> e.properties[k].comment == Some(comments[d[k].key]))
    ensures TableInformation(tableName, script, indexes, triggers).Ok? ==>
      var ps := TableInformation(tableName, script, indexes, triggers).value.properties;
      forall i, j :: 0 <= i < j < |ps| ==> ps[i].name != ps[j].name
  {
    if TableColumns(tableName, script).Ok? {
      TableColumnsShape(tableName, script);
    }
  }
}
