/** ExtractCalls, GetCallName, IsLocalOrInAllowedSchemas, ExtractTablesAndViews,
    GetTableName and IsInAllowedSchemas of ProcessPackages.cs: what a routine
    calls and which tables it reads and writes, found by regular expressions.

    Each regular expression is modelled as a scanner that gives the match the
    .NET engine finds at a start position (greedy quantifiers, backtracking
    included), and Regex.Matches as the scan from position 0 that tries every
    start in turn and resumes at the end of each match. */
module ReferenceExtractor {
  import opened Wrappers
  import opened Strings
  import opened TextUtils

  /** The characters [start, end) of a text. */
  datatype Span = Span(start: nat, end: nat)

  /** The texts of some spans of `s`. */
  function Texts(s: string, spans: seq<Span>): seq<string>
    requires forall k :: 0 <= k < |spans| ==> spans[k].start <= spans[k].end <= |s|
  {
    seq(|spans|, k requires 0 <= k < |spans| => s[spans[k].start..spans[k].end])
  }

  /** A run of word characters and dots that starts and ends with a word
      character. */
  predicate IsQualifiedName(g: string) {
    && |g| > 0 && IsWordChar(g[0]) && IsWordChar(g[|g| - 1])
    && forall j :: 0 <= j < |g| ==> InClass(g[j], WordOrDot)
  }

  // ---------------------------------------------------------------- calls

  /** The call pattern \b(\w+[\w\.]*(\w+))\s*\(\s* tried at `i`: a word
      boundary, a run of at least two word characters and dots that starts
      and ends with a word character, optional white space, '(' and optional
      white space. The run is taken whole: '(' never directly follows a word
      character or a dot, so no shorter run can match. The result is the end
      of the match. */
  function CallAt(s: string, i: nat): (m: Option<nat>)
    requires i <= |s|
    ensures m.Some? ==> i < m.value <= |s|
  {
    if i < |s| && IsWordChar(s[i]) && (i == 0 || !IsWordChar(s[i - 1])) then
      var e := RunEnd(s, i, WordOrDot);
      if e - i >= 2 && IsWordChar(s[e - 1]) then
        var p := RunEnd(s, e, Space);
        if p < |s| && s[p] == '(' then Some(RunEnd(s, p + 1, Space)) else None
      else None
    else None
  }

  /** The call matches from `i` on. */
  function CallSpans(s: string, i: nat): (r: seq<Span>)
    requires i <= |s|
    ensures forall k {:trigger r[k]} :: 0 <= k < |r| ==> i <= r[k].start <= |s| && CallAt(s, r[k].start) == Some(r[k].end)
    decreases |s| - i
  {
    if i == |s| then []
    else
      match CallAt(s, i)
      case Some(m) => [Span(i, m)] + CallSpans(s, m)
      case None => CallSpans(s, i + 1)
  }

  /** Regex.Matches with the call pattern: the text of every match. */
  function CallMatches(s: string): seq<string> {
    Texts(s, CallSpans(s, 0))
  }

  /** GetCallName: the text before its first '(' (when that is not its first
      character), '$' replaced by '_', lower-cased, trimmed. */
  function CallName(text: string): string {
    var paren := IndexOf(text, "(");
    var head := if paren > 0 then text[..paren] else text;
    Trim(ToLower(Replace(head, "$", "_")))
  }

  /** IsLocalOrInAllowedSchemas: a call without a dot is local; a qualified
      one is kept when it names a PK_ package or the schema. */
  predicate IsLocalOrInAllowedSchemas(name: string, schema: string) {
    !Contains(name, ".") || StartsWith(ToUpper(name), "PK_") || Contains(ToUpper(name), schema + ".")
  }

  /** The two tests a match passes before its name is recorded. */
  predicate IsKeptCall(call: string, schema: string) {
    !StartsWith(Trim(ToUpper(call)), "RETURN") && IsLocalOrInAllowedSchemas(call, schema)
  }

  /** What the loop makes of one match: whether it passes both tests, and
      the name it records then. */
  datatype Verdict = Verdict(kept: bool, name: string)

  function Verdicts(calls: seq<string>, schema: string): (vs: seq<Verdict>)
    ensures |vs| == |calls|
    ensures forall k {:trigger vs[k]} :: 0 <= k < |calls| ==> vs[k] == Verdict(IsKeptCall(calls[k], schema), CallName(calls[k]))
  {
    seq(|calls|, k requires 0 <= k < |calls| => Verdict(IsKeptCall(calls[k], schema), CallName(calls[k])))
  }

  /** The names of the kept matches, in order. */
  function Recorded(vs: seq<Verdict>): seq<string> {
    if |vs| == 0 then []
    else
      var init := Recorded(vs[..|vs| - 1]);
      var v := vs[|vs| - 1];
      if v.kept then init + [v.name] else init
  }

  function KeptCalls(calls: seq<string>, schema: string): seq<string> {
    Recorded(Verdicts(calls, schema))
  }

  /** ExtractCalls: the calls of the text from the first BEGIN on;
      Substring throws when there is none. */
  function Calls(content: string, schema: string): (r: Result<seq<string>>)
    ensures r.Ok? <==> Contains(content, "BEGIN")
    ensures r.Err? ==> r.error == ArgumentOutOfRange("String.Substring")
  {
    match SubstringFrom(content, IndexOf(content, "BEGIN"))
    case Err(e) => Err(e)
    case Ok(body) => Ok(KeptCalls(CallMatches(body), schema))
  }

  /** ExtractCalls: a loop over the matches that skips RETURN and calls into
      other schemas. */
  method ExtractCalls(content: string, schema: string) returns (r: Result<seq<string>>)
    ensures r == Calls(content, schema)
  {
    var body := SubstringFrom(content, IndexOf(content, "BEGIN"));
    if body.Err? {
      return Err(body.error);
    }
    var matches := CallMatches(body.value);
    ghost var verdicts := Verdicts(matches, schema);
    var callsList: seq<string> := [];
    for k := 0 to |matches|
      invariant callsList == Recorded(verdicts[..k])
    {
      var call := matches[k];
      assert verdicts[..k + 1][..k] == verdicts[..k];
      assert verdicts[k] == Verdict(IsKeptCall(call, schema), CallName(call));
      if StartsWith(Trim(ToUpper(call)), "RETURN") {
        continue;
      }
      if !IsLocalOrInAllowedSchemas(call, schema) {
        continue;
      }
      callsList := callsList + [CallName(call)];
    }
    assert verdicts[..|matches|] == verdicts;
    r := Ok(callsList);
  }

  // ---------------------------------------------------------------- call properties

  /** Lower-casing keeps word characters and white space in their class. */
  lemma LowerCharClass(c: char)
    ensures IsWordChar(c) ==> IsWordChar(LowerChar(c)) && !IsWhiteSpace(LowerChar(c))
    ensures IsWhiteSpace(c) ==> LowerChar(c) == c
    ensures LowerChar(c) == '.' <==> c == '.'
  {
  }

  /** The first '(' of a call match is the one after the identifier. */
  lemma CallParen(s: string, i: nat)
    requires i <= |s| && CallAt(s, i).Some?
    ensures IndexOf(s[i..CallAt(s, i).value], "(") == RunEnd(s, RunEnd(s, i, WordOrDot), Space) - i
  {
    hide RunEnd;
    var m := CallAt(s, i).value;
    var e := RunEnd(s, i, WordOrDot);
    var p := RunEnd(s, e, Space);
    assert p < |s| && s[p] == '(' && m == RunEnd(s, p + 1, Space);
    var t := s[i..m];
    assert t[p - i] == s[p];
    assert t[p - i..p - i + 1] == "(";
    assert OccursAt(t, "(", p - i);
    forall j | 0 <= j < p - i ensures !OccursAt(t, "(", j) {
      assert t[j] == s[i + j];
      assert InClass(s[i + j], WordOrDot) || InClass(s[i + j], Space);
      assert t[j..j + 1][0] == t[j];
    }
  }

  /** Trimming the lower-cased identifier and the white space after it
      leaves the lower-cased identifier. */
  lemma TrimLowerIdentifier(s: string, i: nat, e: nat, p: nat)
    requires i + 2 <= e <= p <= |s|
    requires IsWordChar(s[i]) && IsWordChar(s[e - 1])
    requires forall j :: e <= j < p ==> IsWhiteSpace(s[j])
    ensures Trim(ToLower(s[i..p])) == ToLower(s[i..e])
  {
    var l := ToLower(s[i..p]);
    forall j | e - i <= j < |l| ensures IsWhiteSpace(l[j]) {
      assert l[j] == LowerChar(s[i + j]);
      LowerCharClass(s[i + j]);
    }
    assert l[0] == LowerChar(s[i]);
    LowerCharClass(s[i]);
    assert l[e - i - 1] == LowerChar(s[e - 1]);
    LowerCharClass(s[e - 1]);
    TrimSliceUnique(l, 0, e - i);
    assert l[0..e - i] == ToLower(s[i..e]);
  }

  /** Text without '$' is left alone by Replace("$", "_"). */
  lemma NoDollar(s: string, i: nat, p: nat)
    requires i <= p <= |s|
    requires forall j :: i <= j < p ==> InClass(s[j], WordOrDot) || IsWhiteSpace(s[j])
    ensures Replace(s[i..p], "$", "_") == s[i..p]
  {
    var head := s[i..p];
    forall j | 0 <= j < |head| ensures head[j] != '$' {
      assert head[j] == s[i + j];
    }
    ContainsChar(head, '$');
    ReplaceAbsent(head, "$", "_");
  }

  /** The name of a call match is its identifier, lower-cased: the white
      space and the parenthesis are dropped, and there is no '$' to replace
      since '$' is not a word character. */
  lemma CallNameAt(s: string, i: nat)
    requires i <= |s| && CallAt(s, i).Some?
    ensures CallName(s[i..CallAt(s, i).value]) == ToLower(s[i..RunEnd(s, i, WordOrDot)])
  {
    hide RunEnd, Trim, IndexOf, Replace;
    var m := CallAt(s, i).value;
    var e := RunEnd(s, i, WordOrDot);
    var p := RunEnd(s, e, Space);
    var t := s[i..m];
    CallParen(s, i);
    assert t[..p - i] == s[i..p];
    NoDollar(s, i, p);
    TrimLowerIdentifier(s, i, e, p);
  }

  /** The identifier of a call match is a qualified name of at least two
      characters. */
  lemma CallIdentifier(s: string, i: nat)
    requires i <= |s| && CallAt(s, i).Some?
    ensures IsQualifiedName(s[i..RunEnd(s, i, WordOrDot)]) && RunEnd(s, i, WordOrDot) - i >= 2
  {
    var e := RunEnd(s, i, WordOrDot);
    assert forall j :: 0 <= j < e - i ==> s[i..e][j] == s[i + j];
  }

  /** Lower-casing keeps a qualified name qualified. */
  lemma LowerQualifiedName(g: string)
    requires IsQualifiedName(g)
    ensures IsQualifiedName(ToLower(g)) && IsLowerCased(ToLower(g))
  {
  }

  /** Every call match names a lower-cased identifier of at least two
      characters. */
  lemma {:induction false} CallMatchNames(s: string)
    ensures forall t :: t in CallMatches(s) ==> IsQualifiedName(CallName(t)) && |CallName(t)| >= 2 && IsLowerCased(CallName(t))
  {
    var spans := CallSpans(s, 0);
    forall t | t in CallMatches(s)
      ensures IsQualifiedName(CallName(t)) && |CallName(t)| >= 2 && IsLowerCased(CallName(t))
    {
      var k :| 0 <= k < |spans| && CallMatches(s)[k] == t;
      var i := spans[k].start;
      assert CallAt(s, i) == Some(spans[k].end);
      CallNameAt(s, i);
      CallIdentifier(s, i);
      LowerQualifiedName(s[i..RunEnd(s, i, WordOrDot)]);
    }
  }

  /** Every kept match has its name recorded. */
  lemma {:induction false} RecordedComplete(vs: seq<Verdict>)
    ensures forall k :: 0 <= k < |vs| && vs[k].kept ==> vs[k].name in Recorded(vs)
  {
    if |vs| > 0 {
      var n := |vs| - 1;
      RecordedComplete(vs[..n]);
      assert forall k :: 0 <= k < n ==> vs[..n][k] == vs[k];
    }
  }

  /** Every recorded name is that of a kept match. */
  lemma {:induction false} RecordedSound(vs: seq<Verdict>)
    ensures forall x :: x in Recorded(vs) ==> exists k :: 0 <= k < |vs| && vs[k].kept && x == vs[k].name
  {
    if |vs| > 0 {
      var n := |vs| - 1;
      RecordedSound(vs[..n]);
      forall x | x in Recorded(vs)
        ensures exists k :: 0 <= k < |vs| && vs[k].kept && x == vs[k].name
      {
        if x in Recorded(vs[..n]) {
          var k :| 0 <= k < n && vs[..n][k].kept && x == vs[..n][k].name;
          assert vs[..n][k] == vs[k];
        }
      }
    }
  }

  /** Matches are processed one after the other: the names of two stretches
      of matches are the names of the first followed by those of the second. */
  lemma {:induction false} RecordedAppend(a: seq<Verdict>, b: seq<Verdict>)
    ensures Recorded(a + b) == Recorded(a) + Recorded(b)
    decreases |b|
  {
    if |b| == 0 {
      assert a + b == a;
    } else {
      var n := |b| - 1;
      assert (a + b)[..|a + b| - 1] == a + b[..n];
      assert (a + b)[|a + b| - 1] == b[n];
      RecordedAppend(a, b[..n]);
    }
  }

  /** A name is recorded exactly when some match passes both tests, and the
      name is that match's. */
  lemma KeptCallsMembers(calls: seq<string>, schema: string)
    ensures forall k :: 0 <= k < |calls| && IsKeptCall(calls[k], schema) ==> CallName(calls[k]) in KeptCalls(calls, schema)
    ensures forall x :: x in KeptCalls(calls, schema) ==> exists k :: 0 <= k < |calls| && IsKeptCall(calls[k], schema) && x == CallName(calls[k])
  {
    var vs := Verdicts(calls, schema);
    RecordedComplete(vs);
    RecordedSound(vs);
    forall k | 0 <= k < |calls| && IsKeptCall(calls[k], schema)
      ensures CallName(calls[k]) in KeptCalls(calls, schema)
    {
      assert vs[k].kept && vs[k].name == CallName(calls[k]);
    }
    forall x | x in KeptCalls(calls, schema)
      ensures exists k :: 0 <= k < |calls| && IsKeptCall(calls[k], schema) && x == CallName(calls[k])
    {
      var k :| 0 <= k < |vs| && vs[k].kept && x == vs[k].name;
    }
  }

  /** The names of two stretches of matches are the names of the first
      followed by those of the second: order and repetitions are kept. */
  lemma KeptCallsAppend(a: seq<string>, b: seq<string>, schema: string)
    ensures KeptCalls(a + b, schema) == KeptCalls(a, schema) + KeptCalls(b, schema)
  {
    var va, vb, vab := Verdicts(a, schema), Verdicts(b, schema), Verdicts(a + b, schema);
    forall k | 0 <= k < |vab| ensures vab[k] == (va + vb)[k] {
      if k < |a| {
        assert (a + b)[k] == a[k];
      } else {
        assert (a + b)[k] == b[k - |a|];
      }
    }
    assert vab == va + vb;
    RecordedAppend(va, vb);
  }

  /** Every recorded call is a lower-cased dotted name of at least two
      characters. */
  lemma CallsAreNames(content: string, schema: string)
    requires Calls(content, schema).Ok?
    ensures forall c :: c in Calls(content, schema).value ==> IsQualifiedName(c) && |c| >= 2 && IsLowerCased(c)
  {
    var body := content[IndexOf(content, "BEGIN")..];
    var matches := CallMatches(body);
    CallMatchNames(body);
    KeptCallsMembers(matches, schema);
  }

  // ---------------------------------------------------------------- tables

  /** The four kinds of statement whose table is recorded. */
  datatype Statement = Select | Insert | Update | Delete

  /** A match of a table pattern: the span of its group and the end of the
      whole match. */
  datatype TableMatch = TableMatch(group: Span, end: nat)

  /** The group of a table pattern spans a qualified name of `s`. */
  predicate IsGroupSpan(s: string, g: Span) {
    g.start < g.end <= |s| && IsQualifiedName(s[g.start..g.end])
  }

  /** A run of word characters is a group. */
  lemma WordGroup(s: string, w: nat, e: nat)
    requires w < e <= |s| && forall j :: w <= j < e ==> IsWordChar(s[j])
    ensures IsGroupSpan(s, Span(w, e))
  {
    assert forall j :: 0 <= j < e - w ==> s[w..e][j] == s[w + j];
  }

  /** Two runs of word characters joined by a dot are a group with a dot. */
  lemma DottedGroup(s: string, w: nat, e1: nat)
    requires w < e1 < |s| && RunEnd(s, w, Word) == e1 && s[e1] == '.' && RunEnd(s, e1 + 1, Word) > e1 + 1
    ensures IsGroupSpan(s, Span(w, RunEnd(s, e1 + 1, Word)))
    ensures '.' in s[w..RunEnd(s, e1 + 1, Word)]
  {
    var e2 := RunEnd(s, e1 + 1, Word);
    assert forall j :: 0 <= j < e2 - w ==> s[w..e2][j] == s[w + j];
    assert s[w..e2][e1 - w] == '.';
  }

  /** \w+(?:\.\w+)? from `w`: a word, then a dot and a word when both are
      there. What follows it in every pattern rejects any shorter choice. */
  function QualifiedEnd(s: string, w: nat): (e: Option<nat>)
    requires w <= |s|
    ensures e.Some? ==> w < e.value <= |s| && IsGroupSpan(s, Span(w, e.value))
  {
    var e1 := RunEnd(s, w, Word);
    if e1 == w then None
    else if e1 < |s| && s[e1] == '.' && RunEnd(s, e1 + 1, Word) > e1 + 1 then
      DottedGroup(s, w, e1);
      Some(RunEnd(s, e1 + 1, Word))
    else
      WordGroup(s, w, e1);
      Some(e1)
  }

  /** \s+FROM\s+(\w+\.\w+) of the select pattern, the white space starting
      at `y`: the group. */
  function FromClauseAt(s: string, y: nat): (g: Option<Span>)
    requires y <= |s|
    ensures g.Some? ==> y < g.value.start && IsGroupSpan(s, g.value) && '.' in s[g.value.start..g.value.end]
  {
    if y < |s| && IsWhiteSpace(s[y]) then
      var z := RunEnd(s, y, Space);
      if OccursAtCi(s, "FROM", z) then
        var w := RunEnd(s, z + 4, Space);
        var e1 := RunEnd(s, w, Word);
        if w > z + 4 && w < e1 < |s| && s[e1] == '.' && RunEnd(s, e1 + 1, Word) > e1 + 1 then
          DottedGroup(s, w, e1);
          Some(Span(w, RunEnd(s, e1 + 1, Word)))
        else None
      else None
    else None
  }

  /** The FROM clause `.*` reaches when it may end anywhere from `lo` to
      `y`: the longest choice is tried first. */
  function LastFromClause(s: string, lo: nat, y: nat): (g: Option<Span>)
    requires lo <= y <= |s|
    ensures g.Some? ==> lo < g.value.start && IsGroupSpan(s, g.value) && '.' in s[g.value.start..g.value.end]
    decreases y - lo
  {
    if FromClauseAt(s, y).Some? then FromClauseAt(s, y)
    else if y == lo then None
    else LastFromClause(s, lo, y - 1)
  }

  /** (?i)SELECT\s+.*\s+FROM\s+(\w+\.\w+) tried at `i`. With \s+ taking all
      the white space after SELECT (to `a`), `.*` tries every end on the line
      of `a`, longest first. Failing that, \s+ gives back one character and
      `.*` starts at `a - 1`: the ends it reaches from `a` on have failed
      already, and the end `a - 1` leaves the white space before `a` to the
      second \s+. Giving back more characters leads to the same FROM. */
  function SelectAt(s: string, i: nat): (r: Option<TableMatch>)
    requires i <= |s|
    ensures r.Some? ==> i < r.value.group.start && IsGroupSpan(s, r.value.group) && r.value.end == r.value.group.end
    ensures r.Some? ==> '.' in s[r.value.group.start..r.value.group.end]
  {
    if OccursAtCi(s, "SELECT", i) then
      var a := RunEnd(s, i + 6, Space);
      if a == i + 6 then None
      else
        var g :=
          match LastFromClause(s, a, LineEnd(s, a))
          case Some(g) => Some(g)
          case None => if a - (i + 6) >= 2 then FromClauseAt(s, a - 1) else None;
        if g.Some? then Some(TableMatch(g.value, g.value.end)) else None
    else None
  }

  /** (?i)INSERT\s+INTO\s+(\w+(?:\.\w+)?)\s tried at `i`. */
  function InsertAt(s: string, i: nat): (r: Option<TableMatch>)
    requires i <= |s|
    ensures r.Some? ==> i < r.value.group.start && IsGroupSpan(s, r.value.group) && r.value.group.end < r.value.end <= |s|
  {
    if OccursAtCi(s, "INSERT", i) then
      var a := RunEnd(s, i + 6, Space);
      if a > i + 6 && OccursAtCi(s, "INTO", a) then
        var w := RunEnd(s, a + 4, Space);
        if w > a + 4 then
          match QualifiedEnd(s, w)
          case Some(e) => if e < |s| && IsWhiteSpace(s[e]) then Some(TableMatch(Span(w, e), e + 1)) else None
          case None => None
        else None
      else None
    else None
  }

  /** (?i)UPDATE\s+(\w+(?:\.\w+)?)\s+ tried at `i`. */
  function UpdateAt(s: string, i: nat): (r: Option<TableMatch>)
    requires i <= |s|
    ensures r.Some? ==> i < r.value.group.start && IsGroupSpan(s, r.value.group) && r.value.group.end < r.value.end <= |s|
  {
    if OccursAtCi(s, "UPDATE", i) then
      var w := RunEnd(s, i + 6, Space);
      if w > i + 6 then
        match QualifiedEnd(s, w)
        case Some(e) => if e < |s| && IsWhiteSpace(s[e]) then Some(TableMatch(Span(w, e), RunEnd(s, e, Space))) else None
        case None => None
      else None
    else None
  }

  /** (?i)DELETE\s+FROM\s+(\w+(?:\.\w+)?) tried at `i`. */
  function DeleteAt(s: string, i: nat): (r: Option<TableMatch>)
    requires i <= |s|
    ensures r.Some? ==> i < r.value.group.start && IsGroupSpan(s, r.value.group) && r.value.end == r.value.group.end
  {
    if OccursAtCi(s, "DELETE", i) then
      var a := RunEnd(s, i + 6, Space);
      if a > i + 6 && OccursAtCi(s, "FROM", a) then
        var w := RunEnd(s, a + 4, Space);
        if w > a + 4 then
          match QualifiedEnd(s, w)
          case Some(e) => Some(TableMatch(Span(w, e), e))
          case None => None
        else None
      else None
    else None
  }

  function TableAt(st: Statement, s: string, i: nat): (r: Option<TableMatch>)
    requires i <= |s|
    ensures r.Some? ==> i < r.value.group.start && IsGroupSpan(s, r.value.group) && r.value.group.end <= r.value.end <= |s|
    ensures r.Some? && st == Select ==> '.' in s[r.value.group.start..r.value.group.end]
  {
    match st
    case Select => SelectAt(s, i)
    case Insert => InsertAt(s, i)
    case Update => UpdateAt(s, i)
    case Delete => DeleteAt(s, i)
  }

  /** The groups of the matches of a table pattern from `i` on. */
  function TableSpans(st: Statement, s: string, i: nat): (r: seq<Span>)
    requires i <= |s|
    ensures forall k {:trigger r[k]} :: 0 <= k < |r| ==>
      IsGroupSpan(s, r[k]) && (st == Select ==> '.' in s[r[k].start..r[k].end])
    decreases |s| - i
  {
    if i == |s| then []
    else
      match TableAt(st, s, i)
      case Some(m) => [m.group] + TableSpans(st, s, m.end)
      case None => TableSpans(st, s, i + 1)
  }

  /** Regex.Matches with a table pattern: group 1 of every match. */
  function TableGroups(st: Statement, s: string): (r: seq<string>)
    ensures forall g :: g in r ==> IsQualifiedName(g)
    ensures st == Select ==> forall g :: g in r ==> '.' in g
  {
    Texts(s, TableSpans(st, s, 0))
  }

  /** GetTableName: lower-cased, "FROM " removed, trimmed, upper-cased. */
  function TableName(g: string): string {
    ToUpper(Trim(Replace(ToLower(g), "FROM ", "")))
  }

  /** IsInAllowedSchemas: a qualified name in the schema. */
  predicate IsInAllowedSchemas(name: string, schema: string) {
    Contains(name, ".") && Contains(ToUpper(name), schema + ".")
  }

  /** Where(IsInAllowedSchemas).Select(GetTableName) over some groups. */
  function TablesIn(groups: seq<string>, schema: string): seq<string> {
    if |groups| == 0 then []
    else
      var init := TablesIn(groups[..|groups| - 1], schema);
      var g := groups[|groups| - 1];
      if IsInAllowedSchemas(g, schema) then init + [TableName(g)] else init
  }

  /** The four lists ExtractTablesAndViews returns. */
  datatype Tables = Tables(selects: seq<string>, inserts: seq<string>, updates: seq<string>, deletes: seq<string>)

  /** ExtractTablesAndViews. */
  function TableReferences(content: string, schema: string): Tables {
    Tables(
      TablesIn(TableGroups(Select, content), schema),
      TablesIn(TableGroups(Insert, content), schema),
      TablesIn(TableGroups(Update, content), schema),
      TablesIn(TableGroups(Delete, content), schema))
  }

  // ---------------------------------------------------------------- table properties

  /** Lower-cased text holds no "FROM ", so GetTableName's Replace does
      nothing. */
  lemma LowerHasNoFrom(g: string)
    ensures Replace(ToLower(g), "FROM ", "") == ToLower(g)
  {
    var l := ToLower(g);
    forall j | 0 <= j < |l| ensures l[j] != 'F' {
      assert l[j] == LowerChar(g[j]);
    }
    forall j | 0 <= j && j + 5 <= |l| ensures !OccursAt(l, "FROM ", j) {
      assert l[j..j + 5][0] == l[j];
    }
    ReplaceAbsent(l, "FROM ", "");
  }

  /** A lower-cased qualified name has no white space to trim. */
  lemma LowerNameTrimmed(g: string)
    requires IsQualifiedName(g)
    ensures Trim(ToLower(g)) == ToLower(g)
  {
    var l := ToLower(g);
    assert l[0] == LowerChar(g[0]);
    LowerCharClass(g[0]);
    assert l[|l| - 1] == LowerChar(g[|g| - 1]);
    LowerCharClass(g[|g| - 1]);
    TrimIdentity(l);
  }

  lemma UpperOfLower(g: string)
    ensures ToUpper(ToLower(g)) == ToUpper(g)
  {
    var l := ToLower(g);
    forall j | 0 <= j < |g| ensures ToUpper(l)[j] == ToUpper(g)[j] {
      assert l[j] == LowerChar(g[j]);
    }
  }

  /** GetTableName only upper-cases a group: lower-cased text holds no
      "FROM ", and a group has no white space to trim. */
  lemma TableNameOfGroup(g: string)
    requires IsQualifiedName(g)
    ensures TableName(g) == ToUpper(g)
  {
    LowerHasNoFrom(g);
    LowerNameTrimmed(g);
    UpperOfLower(g);
  }

  /** A table name is recorded exactly when some group is in the schema, and
      the name is that group's. */
  lemma {:induction false} TablesInMembers(groups: seq<string>, schema: string)
    ensures forall k :: 0 <= k < |groups| && IsInAllowedSchemas(groups[k], schema) ==> TableName(groups[k]) in TablesIn(groups, schema)
    ensures forall x :: x in TablesIn(groups, schema) ==> exists k :: 0 <= k < |groups| && IsInAllowedSchemas(groups[k], schema) && x == TableName(groups[k])
  {
    if |groups| > 0 {
      var n := |groups| - 1;
      TablesInMembers(groups[..n], schema);
      assert forall k :: 0 <= k < n ==> groups[..n][k] == groups[k];
    }
  }

  /** The tables of two stretches of groups are those of the first followed
      by those of the second: scan order and repetitions are kept. */
  lemma {:induction false} TablesInAppend(a: seq<string>, b: seq<string>, schema: string)
    ensures TablesIn(a + b, schema) == TablesIn(a, schema) + TablesIn(b, schema)
    decreases |b|
  {
    if |b| > 0 {
      var n := |b| - 1;
      assert (a + b)[..|a + b| - 1] == a + b[..n];
      assert (a + b)[|a + b| - 1] == b[n];
      TablesInAppend(a, b[..n], schema);
    } else {
      assert a + b == a;
    }
  }

  /** A recorded table is written in the schema: it is upper-cased, has a dot,
      and names the schema. */
  predicate InSchema(t: string, schema: string) {
    IsUpperCased(t) && '.' in t && Contains(t, schema + ".")
  }

  /** A group in the schema gives a table name in the schema. */
  lemma TableNameInSchema(g: string, schema: string)
    requires IsQualifiedName(g) && IsInAllowedSchemas(g, schema)
    ensures InSchema(TableName(g), schema)
  {
    TableNameOfGroup(g);
    var t := ToUpper(g);
    forall j | 0 <= j < |t| ensures !('a' <= t[j] <= 'z') {
      assert t[j] == UpperChar(g[j]);
    }
    ContainsChar(g, '.');
    var j :| 0 <= j < |g| && g[j] == '.';
    assert t[j] == '.';
  }

  lemma TablesInSchema(groups: seq<string>, schema: string)
    requires forall g :: g in groups ==> IsQualifiedName(g)
    ensures forall t :: t in TablesIn(groups, schema) ==> InSchema(t, schema)
  {
    TablesInMembers(groups, schema);
    forall t | t in TablesIn(groups, schema) ensures InSchema(t, schema) {
      var k :| 0 <= k < |groups| && IsInAllowedSchemas(groups[k], schema) && t == TableName(groups[k]);
      TableNameInSchema(groups[k], schema);
    }
  }

  /** Every table ExtractTablesAndViews records is in the schema. */
  lemma TableReferencesInSchema(content: string, schema: string)
    ensures forall t :: t in TableReferences(content, schema).selects ==> InSchema(t, schema)
    ensures forall t :: t in TableReferences(content, schema).inserts ==> InSchema(t, schema)
    ensures forall t :: t in TableReferences(content, schema).updates ==> InSchema(t, schema)
    ensures forall t :: t in TableReferences(content, schema).deletes ==> InSchema(t, schema)
  {
    TablesInSchema(TableGroups(Select, content), schema);
    TablesInSchema(TableGroups(Insert, content), schema);
    TablesInSchema(TableGroups(Update, content), schema);
    TablesInSchema(TableGroups(Delete, content), schema);
  }
}
