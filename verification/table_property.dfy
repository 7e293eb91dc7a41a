/** TableProperty.cs: one column of a generated table class. */
module TableProperties {
  import opened Wrappers
  import opened Strings

  /** A column: its name, SQL type, optional comment and optional maximum length. */
  datatype TableProperty = TableProperty(name: string, sqlType: string, comment: Option<string>, length: Option<nat>)

  /** The length texts float.TryParse accepts in the form column lengths
      take: a decimal digit followed by digits and ',' group separators
      (invariant culture), once surrounding white space is trimmed. */
  predicate IsLengthNumeral(t: string) {
    |t| > 0 && IsDigit(t[0]) && forall i :: 0 <= i < |t| ==> IsDigit(t[i]) || t[i] == ','
  }

  function DigitValue(c: char): nat
    requires IsDigit(c)
  {
    c as int - '0' as int
  }

  /** The number the digits of `t` spell, group separators skipped. */
  function DigitsValue(t: string): nat {
    if |t| == 0 then 0
    else
      var c := t[|t| - 1];
      if IsDigit(c) then DigitsValue(t[..|t| - 1]) * 10 + DigitValue(c)
      else DigitsValue(t[..|t| - 1])
  }

  /** float.TryParse(text, out l): Some(l) when the text parses, None otherwise. */
  function ParseLength(text: string): Option<nat> {
    var t := Trim(text);
    if IsLengthNumeral(t) then Some(DigitsValue(t)) else None
  }

  /** The TableProperty constructor: a null argument is None. Length is left
      out when its text is null or empty or does not parse, which is not an error. */
  function NewTableProperty(name: string, sqlType: string, length: Option<string>, comment: Option<string>): (p: TableProperty)
    ensures p.name == name && p.sqlType == sqlType && p.comment == comment
    ensures length.None? || length.value == "" ==> p.length.None?
    ensures p.length.Some? <==> length.Some? && IsLengthNumeral(Trim(length.value))
    ensures p.length.Some? ==> p.length == ParseLength(length.value)
  {
    var parsed := if length.None? || length.value == "" then None else ParseLength(length.value);
    TableProperty(name, sqlType, comment, parsed)
  }

  // ---------------------------------------------------------------- properties

  /** The decimal text of `n`, without sign or separators. */
  function DecimalText(n: nat): (t: string)
    ensures |t| > 0 && forall i :: 0 <= i < |t| ==> IsDigit(t[i])
  {
    var d := ['0' + (n % 10) as char];
    if n < 10 then d else DecimalText(n / 10) + d
  }

  lemma {:induction false} DigitsOfDecimal(n: nat)
    ensures DigitsValue(DecimalText(n)) == n
  {
    var t := DecimalText(n);
    if n < 10 {
      assert t[..0] == [];
    } else {
      DigitsOfDecimal(n / 10);
      assert t[..|t| - 1] == DecimalText(n / 10);
    }
  }

  /** A length written in decimal is stored with the value it spells. */
  lemma LengthOfDecimal(n: nat)
    ensures NewTableProperty("c", "VARCHAR2", Some(DecimalText(n)), None).length == Some(n)
  {
    var t := DecimalText(n);
    TrimIdentity(t);
    DigitsOfDecimal(n);
  }

  /** A ',' in the length text is a thousands separator, not a decimal
      point: the length of NUMBER(10,2) is one hundred and two. */
  lemma LengthGroupSeparator()
    ensures NewTableProperty("c", "NUMBER", Some("10,2"), None).length == Some(102)
  {
    TrimIdentity("10,2");
    assert IsLengthNumeral("10,2");
    assert DigitsValue("1") == 1 by { assert "1"[..0] == ""; }
    assert DigitsValue("10") == 10 by { assert "10"[..1] == "1"; }
    assert DigitsValue("10,") == 10 by { assert "10,"[..2] == "10"; }
    assert DigitsValue("10,2") == 102 by { assert "10,2"[..3] == "10,"; }
  }
}
