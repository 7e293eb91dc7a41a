/** The parts of .NET's System.String that the extraction engine relies on:
    ordinal search and replacement, Trim, Split and Join, and case mapping.
    Case mapping is ASCII; the white-space and word-character classes are
    exact on Latin-1, the encoding the engine decodes its input files with. */
module Strings {
  import opened Wrappers

  /** Char.IsWhiteSpace, and the regex class \s, on Latin-1. */
  predicate IsWhiteSpace(c: char) {
    c == ' ' || '\t' <= c <= '\r' || c == '\U{85}' || c == '\U{A0}'
  }

  /** The regex class \w on Latin-1: letters, decimal digits and '_'. */
  predicate IsWordChar(c: char) {
    || 'A' <= c <= 'Z' || 'a' <= c <= 'z' || '0' <= c <= '9' || c == '_'
    || c == '\U{AA}' || c == '\U{B5}' || c == '\U{BA}'
    || ('\U{C0}' <= c <= '\U{FF}' && c != '\U{D7}' && c != '\U{F7}')
  }

  predicate IsDigit(c: char) { '0' <= c <= '9' }

  /** The character classes a scanner can skip a run of. */
  datatype CharClass = Space | Word | WordOrDot

  predicate InClass(c: char, k: CharClass) {
    match k
    case Space => IsWhiteSpace(c)
    case Word => IsWordChar(c)
    case WordOrDot => IsWordChar(c) || c == '.'
  }

  /** End of the longest run of class-`k` characters starting at `i`. */
  function RunEnd(s: string, i: nat, k: CharClass): (e: nat)
    requires i <= |s|
    ensures i <= e <= |s|
    ensures forall j :: i <= j < e ==> InClass(s[j], k)
    ensures e < |s| ==> !InClass(s[e], k)
    decreases |s| - i
  {
    if i < |s| && InClass(s[i], k) then RunEnd(s, i + 1, k) else i
  }

  // ---------------------------------------------------------------- case

  function UpperChar(c: char): char {
    if 'a' <= c <= 'z' then (c as int - 32) as char else c
  }

  function LowerChar(c: char): char {
    if 'A' <= c <= 'Z' then (c as int + 32) as char else c
  }

  /** String.ToUpper, ASCII letters only. */
  function ToUpper(s: string): (r: string)
    ensures |r| == |s| && forall i :: 0 <= i < |s| ==> r[i] == UpperChar(s[i])
  {
    seq(|s|, i requires 0 <= i < |s| => UpperChar(s[i]))
  }

  /** String.ToLower, ASCII letters only. */
  function ToLower(s: string): (r: string)
    ensures |r| == |s| && forall i :: 0 <= i < |s| ==> r[i] == LowerChar(s[i])
  {
    seq(|s|, i requires 0 <= i < |s| => LowerChar(s[i]))
  }

  /** Holds of every result of ToUpper: no ASCII lower-case letter. */
  predicate IsUpperCased(s: string) {
    forall i :: 0 <= i < |s| ==> !('a' <= s[i] <= 'z')
  }

  /** Holds of every result of ToLower: no ASCII upper-case letter. */
  predicate IsLowerCased(s: string) {
    forall i :: 0 <= i < |s| ==> !('A' <= s[i] <= 'Z')
  }

  /** StringComparer.InvariantCultureIgnoreCase, ASCII letters only. */
  predicate CiEquals(a: string, b: string) {
    ToUpper(a) == ToUpper(b)
  }

  // ---------------------------------------------------------------- search

  /** `p` occurs in `s` at index `i` (ordinal comparison). */
  predicate OccursAt(s: string, p: string, i: int) {
    0 <= i && i + |p| <= |s| && s[i..i + |p|] == p
  }

  /** `p` occurs in `s` at index `i`, ignoring the case of ASCII letters;
      `p` is written in upper case. */
  predicate OccursAtCi(s: string, p: string, i: int) {
    0 <= i && i + |p| <= |s| && ToUpper(s[i..i + |p|]) == p
  }

  predicate StartsWith(s: string, p: string) {
    OccursAt(s, p, 0)
  }

  predicate EndsWith(s: string, p: string) {
    |p| <= |s| && s[|s| - |p|..] == p
  }

  /** String.IndexOf: the first ordinal occurrence of `p`, or -1. */
  function IndexOf(s: string, p: string): (r: int)
    ensures -1 <= r <= |s|
    ensures r >= 0 ==> OccursAt(s, p, r) && forall j :: 0 <= j < r ==> !OccursAt(s, p, j)
    ensures r < 0 ==> forall j :: !OccursAt(s, p, j)
    decreases |s|
  {
    if OccursAt(s, p, 0) then 0
    else if |s| == 0 then -1
    else
      var k := IndexOf(s[1..], p);
      OccursShift(s, p);
      if k < 0 then -1 else k + 1
  }

  /** An occurrence in the tail of `s` is an occurrence in `s` one further on. */
  lemma OccursShift(s: string, p: string)
    requires |s| > 0
    ensures forall j :: OccursAt(s, p, j) <==> (j == 0 && OccursAt(s, p, 0)) || (j >= 1 && OccursAt(s[1..], p, j - 1))
  {
    forall j ensures OccursAt(s, p, j) <==> (j == 0 && OccursAt(s, p, 0)) || (j >= 1 && OccursAt(s[1..], p, j - 1)) {
      if 1 <= j && j + |p| <= |s| {
        assert s[1..][j - 1..j - 1 + |p|] == s[j..j + |p|];
      }
    }
  }

  predicate Contains(s: string, p: string) {
    IndexOf(s, p) >= 0
  }

  /** The end of the line that starts at `i`: its first '\n', or the end of the text. */
  function LineEnd(s: string, i: nat): (e: nat)
    requires i <= |s|
    ensures i <= e <= |s| && (e < |s| ==> s[e] == '\n')
    ensures forall j :: i <= j < e ==> s[j] != '\n'
    decreases |s| - i
  {
    if i == |s| || s[i] == '\n' then i else LineEnd(s, i + 1)
  }

  /** What a slice of `s` contains, `s` contains. */
  lemma ContainsInSlice(s: string, a: nat, b: nat, p: string)
    requires a <= b <= |s| && Contains(s[a..b], p)
    ensures Contains(s, p)
  {
    var t := s[a..b];
    var i := IndexOf(t, p);
    assert 0 <= i && i + |p| <= |t| && t[i..i + |p|] == p;
    assert forall j :: 0 <= j < |p| ==> s[a + i + j] == t[i + j] == p[j];
    assert s[a + i..a + i + |p|] == p;
    assert OccursAt(s, p, a + i);
  }

  /** String.LastIndexOf for a one-character pattern. */
  function LastIndexOf(s: string, c: char): (r: int)
    ensures -1 <= r < |s|
    ensures r >= 0 ==> s[r] == c && forall j :: r < j < |s| ==> s[j] != c
    ensures r < 0 ==> c !in s
  {
    if |s| == 0 then -1
    else if s[|s| - 1] == c then |s| - 1
    else LastIndexOf(s[..|s| - 1], c)
  }

  /** String.Substring(start, length), which throws unless the range is inside `s`. */
  function Substring(s: string, start: int, length: int): (r: Result<string>)
    ensures r.Ok? <==> 0 <= start && 0 <= length && start + length <= |s|
    ensures r.Ok? ==> r.value == s[start..start + length]
  {
    if 0 <= start && 0 <= length && start + length <= |s| then Ok(s[start..start + length])
    else Err(ArgumentOutOfRange("String.Substring"))
  }

  /** String.Substring(start). */
  function SubstringFrom(s: string, start: int): (r: Result<string>)
    ensures r.Ok? <==> 0 <= start <= |s|
    ensures r.Ok? ==> r.value == s[start..]
  {
    if 0 <= start <= |s| then Ok(s[start..]) else Err(ArgumentOutOfRange("String.Substring"))
  }

  // ---------------------------------------------------------------- replace

  /** String.Replace: one left-to-right pass replacing non-overlapping
      ordinal occurrences of `pat` by `rep`. */
  function Replace(s: string, pat: string, rep: string): string
    requires pat != []
    decreases |s|
  {
    if |s| == 0 then []
    else if StartsWith(s, pat) then rep + Replace(s[|pat|..], pat, rep)
    else [s[0]] + Replace(s[1..], pat, rep)
  }

  lemma {:induction false} ReplaceAbsent(s: string, pat: string, rep: string)
    requires pat != [] && !Contains(s, pat)
    ensures Replace(s, pat, rep) == s
    decreases |s|
  {
    if |s| > 0 {
      assert !OccursAt(s, pat, 0);
      OccursShift(s, pat);
      ReplaceAbsent(s[1..], pat, rep);
      assert s == [s[0]] + s[1..];
    }
  }

  lemma {:induction false} ReplaceNotLonger(s: string, pat: string, rep: string)
    requires pat != [] && |rep| <= |pat|
    ensures |Replace(s, pat, rep)| <= |s|
    decreases |s|
  {
    if |s| > 0 {
      if StartsWith(s, pat) {
        ReplaceNotLonger(s[|pat|..], pat, rep);
      } else {
        ReplaceNotLonger(s[1..], pat, rep);
      }
    }
  }

  /** Every character of the result comes from the input or from `rep`. */
  lemma {:induction false} ReplaceChars(s: string, pat: string, rep: string, c: char)
    requires pat != [] && c !in s && c !in rep
    ensures c !in Replace(s, pat, rep)
    decreases |s|
  {
    if |s| > 0 {
      if StartsWith(s, pat) {
        ReplaceChars(s[|pat|..], pat, rep, c);
      } else {
        ReplaceChars(s[1..], pat, rep, c);
      }
    }
  }

  /** Replacing a one-character pattern by text without it removes it entirely. */
  lemma {:induction false} ReplaceRemovesChar(s: string, c: char, rep: string)
    requires c !in rep
    ensures c !in Replace(s, [c], rep)
    decreases |s|
  {
    if |s| > 0 {
      if StartsWith(s, [c]) {
        ReplaceRemovesChar(s[1..], c, rep);
      } else {
        assert s[0] != c;
        ReplaceRemovesChar(s[1..], c, rep);
      }
    }
  }

  /** Replacing by the empty string keeps a string free of ASCII lower case. */
  lemma {:induction false} ReplaceKeepsUpperCased(s: string, pat: string)
    requires pat != [] && IsUpperCased(s)
    ensures IsUpperCased(Replace(s, pat, ""))
    decreases |s|
  {
    if |s| > 0 {
      if StartsWith(s, pat) {
        ReplaceKeepsUpperCased(s[|pat|..], pat);
      } else {
        ReplaceKeepsUpperCased(s[1..], pat);
        assert Replace(s, pat, "") == [s[0]] + Replace(s[1..], pat, "");
      }
    }
  }

  // ---------------------------------------------------------------- trim

  /** All white space (String.IsNullOrWhiteSpace). */
  predicate IsBlank(s: string) {
    forall i :: 0 <= i < |s| ==> IsWhiteSpace(s[i])
  }

  /** Index one past the last non-white-space character. */
  function TrimEndIndex(s: string): (k: nat)
    ensures k <= |s|
    ensures forall j :: k <= j < |s| ==> IsWhiteSpace(s[j])
    ensures k > 0 ==> !IsWhiteSpace(s[k - 1])
  {
    if |s| > 0 && IsWhiteSpace(s[|s| - 1]) then TrimEndIndex(s[..|s| - 1]) else |s|
  }

  /** String.Trim: `s` without its leading and trailing white space. */
  function Trim(s: string): string {
    var a := RunEnd(s, 0, Space);
    s[a..a + TrimEndIndex(s[a..])]
  }

  /** Trim keeps a slice of `s` with only white space cut from either side. */
  lemma TrimSlice(s: string) returns (a: nat, b: nat)
    ensures a <= b <= |s| && Trim(s) == s[a..b]
    ensures forall j :: 0 <= j < a ==> IsWhiteSpace(s[j])
    ensures forall j :: b <= j < |s| ==> IsWhiteSpace(s[j])
    ensures a < b ==> !IsWhiteSpace(s[a]) && !IsWhiteSpace(s[b - 1])
    ensures a == b ==> IsBlank(s)
  {
    a := RunEnd(s, 0, Space);
    b := a + TrimEndIndex(s[a..]);
  }

  lemma TrimBlank(s: string)
    ensures Trim(s) == [] <==> IsBlank(s)
  {
    var a, b := TrimSlice(s);
  }

  /** Neither starts nor ends with white space, as every result of Trim. */
  predicate Trimmed(s: string) {
    |s| > 0 ==> !IsWhiteSpace(s[0]) && !IsWhiteSpace(s[|s| - 1])
  }

  lemma TrimTrimmed(s: string)
    ensures Trimmed(Trim(s))
  {
    var a, b := TrimSlice(s);
  }

  /** A text that neither starts nor ends with white space is its own Trim. */
  lemma TrimIdentity(s: string)
    requires |s| > 0 ==> !IsWhiteSpace(s[0]) && !IsWhiteSpace(s[|s| - 1])
    ensures Trim(s) == s
  {
    var a, b := TrimSlice(s);
  }

  /** A text whose first and last characters are not white space survives Trim. */
  lemma TrimKeepsContained(s: string, w: string)
    requires Contains(s, w) && |w| > 0
    requires !IsWhiteSpace(w[0]) && !IsWhiteSpace(w[|w| - 1])
    ensures Contains(Trim(s), w)
  {
    hide Trim, RunEnd, TrimEndIndex, IndexOf;
    var a, b := TrimSlice(s);
    var i := IndexOf(s, w);
    assert s[i] == w[0] && s[i + |w| - 1] == w[|w| - 1];
    assert a <= i && i + |w| <= b;
    assert OccursAt(Trim(s), w, i - a);
  }

  /** Any slice that cuts only white space, down to a non-white first and
      last character (or to nothing when all is white), is the Trim. */
  lemma TrimSliceUnique(s: string, a: nat, b: nat)
    requires a <= b <= |s|
    requires forall j :: 0 <= j < a ==> IsWhiteSpace(s[j])
    requires forall j :: b <= j < |s| ==> IsWhiteSpace(s[j])
    requires a < b ==> !IsWhiteSpace(s[a]) && !IsWhiteSpace(s[b - 1])
    requires a == b ==> IsBlank(s)
    ensures Trim(s) == s[a..b]
  {
    var a', b' := TrimSlice(s);
    if a < b {
      assert !IsBlank(s) by { assert !IsWhiteSpace(s[a]); }
      assert a' == a;
      assert b' == b;
    }
  }

  /** Trim and the case mappings commute, since they leave white space alone. */
  lemma UpperTrim(s: string)
    ensures ToUpper(Trim(s)) == Trim(ToUpper(s))
  {
    hide Trim, RunEnd, TrimEndIndex;
    var a, b := TrimSlice(s);
    var u := ToUpper(s);
    forall j | 0 <= j < |s| ensures IsWhiteSpace(s[j]) <==> IsWhiteSpace(u[j]) {
      assert u[j] == UpperChar(s[j]);
    }
    TrimSliceUnique(u, a, b);
    assert ToUpper(s[a..b]) == u[a..b];
  }

  lemma TrimLower(s: string)
    ensures ToLower(Trim(s)) == Trim(ToLower(s))
  {
    hide Trim, RunEnd, TrimEndIndex;
    var a, b := TrimSlice(s);
    var l := ToLower(s);
    forall j | 0 <= j < |s| ensures IsWhiteSpace(s[j]) <==> IsWhiteSpace(l[j]) {
      assert l[j] == LowerChar(s[j]);
    }
    TrimSliceUnique(l, a, b);
    assert ToLower(s[a..b]) == l[a..b];
  }

  // ---------------------------------------------------------------- split and join

  /** String.Split(separator): the pieces between ordinal occurrences of
      `sep`, scanned left to right, empty pieces kept. */
  function Split(s: string, sep: string): (r: seq<string>)
    requires sep != []
    ensures |r| >= 1
    decreases |s|
  {
    var i := IndexOf(s, sep);
    if i < 0 then [s] else [s[..i]] + Split(s[i + |sep|..], sep)
  }

  /** String.Join. */
  function Join(sep: string, parts: seq<string>): string {
    if |parts| == 0 then ""
    else if |parts| == 1 then parts[0]
    else parts[0] + sep + Join(sep, parts[1..])
  }

  /** Joining the pieces of a split with the same separator gives the input back. */
  lemma {:induction false} JoinSplit(s: string, sep: string)
    requires sep != []
    ensures Join(sep, Split(s, sep)) == s
    decreases |s|
  {
    hide IndexOf;
    var i := IndexOf(s, sep);
    if i >= 0 {
      var rest := s[i + |sep|..];
      JoinSplit(rest, sep);
      var pieces := Split(rest, sep);
      var parts := [s[..i]] + pieces;
      assert Split(s, sep) == parts;
      assert parts[0] == s[..i] && parts[1..] == pieces;
      assert Join(sep, parts) == s[..i] + sep + Join(sep, pieces);
      assert s[i..i + |sep|] == sep;
      assert s == s[..i] + s[i..i + |sep|] + rest;
    } else {
      assert Split(s, sep) == [s];
    }
  }

  /** The first piece of a split runs up to the first separator, or is the
      whole text when there is none. */
  lemma SplitFirst(s: string, sep: string)
    requires sep != []
    ensures var i := IndexOf(s, sep);
      Split(s, sep)[0] == if i < 0 then s else s[..i]
  {
  }

  /** The first piece of a split is a prefix of the text. */
  lemma SplitFirstIsPrefix(s: string, sep: string)
    requires sep != []
    ensures |Split(s, sep)[0]| <= |s| && Split(s, sep)[0] == s[..|Split(s, sep)[0]|]
  {
  }

  /** No piece of a split contains the separator. */
  lemma {:induction false} SplitPiecesFree(s: string, sep: string)
    requires sep != []
    ensures forall k :: 0 <= k < |Split(s, sep)| ==> !Contains(Split(s, sep)[k], sep)
    decreases |s|
  {
    var i := IndexOf(s, sep);
    if i >= 0 {
      SplitPiecesFree(s[i + |sep|..], sep);
      assert forall j :: OccursAt(s[..i], sep, j) ==> OccursAt(s, sep, j);
    }
  }

  /** The pieces of a split that are not empty (StringSplitOptions.RemoveEmptyEntries). */
  function NonEmpty(parts: seq<string>): (r: seq<string>)
    ensures forall k :: 0 <= k < |r| ==> r[k] != []
  {
    if |parts| == 0 then []
    else if parts[0] == [] then NonEmpty(parts[1..])
    else [parts[0]] + NonEmpty(parts[1..])
  }

  /** The pieces that are not blank (Where(x => !string.IsNullOrWhiteSpace(x))). */
  function NonBlank(parts: seq<string>): (r: seq<string>)
    ensures forall k :: 0 <= k < |r| ==> !IsBlank(r[k]) && r[k] in parts
    ensures |r| <= |parts|
  {
    if |parts| == 0 then []
    else if IsBlank(parts[0]) then NonBlank(parts[1..])
    else [parts[0]] + NonBlank(parts[1..])
  }
}
