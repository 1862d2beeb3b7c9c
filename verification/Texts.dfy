/** Splitting a text at a separator, joining fields, and their inversion. */
module Texts {
  /** The position of the first separator, or the length. */
  function FirstAt(s: string, separator: char): (i: nat)
    ensures i <= |s| && (i < |s| ==> s[i] == separator)
    ensures forall j :: 0 <= j < i ==> s[j] != separator
  {
    if s == [] || s[0] == separator then 0 else 1 + FirstAt(s[1..], separator)
  }

  /** `str::split`: always at least one field. */
  function Split(s: string, separator: char): (fields: seq<string>)
    ensures |fields| >= 1
    ensures forall i :: 0 <= i < |fields| ==> separator !in fields[i]
  {
    var i := FirstAt(s, separator);
    if i == |s| then [s] else [s[..i]] + Split(s[i + 1..], separator)
  }

  function Join(fields: seq<string>, separator: char): (s: string)
    requires |fields| >= 1
  {
    if |fields| == 1 then fields[0] else fields[0] + [separator] + Join(fields[1..], separator)
  }

  lemma {:induction false} JoinInvertsSplit(s: string, separator: char)
    ensures Join(Split(s, separator), separator) == s
  {
    hide FirstAt;
    var i := FirstAt(s, separator);
    if i < |s| {
      JoinInvertsSplit(s[i + 1..], separator);
      assert Split(s, separator)[1..] == Split(s[i + 1..], separator);
      assert s == s[..i] + [separator] + s[i + 1..];
    }
  }

  lemma FirstAfterField(field: string, separator: char, rest: string)
    requires separator !in field
    ensures FirstAt(field, separator) == |field|
    ensures FirstAt(field + [separator] + rest, separator) == |field|
  {
    var s := field + [separator] + rest;
    assert s[|field|] == separator;
    assert s[..|field|] == field;
  }

  lemma {:induction false} SplitInvertsJoin(fields: seq<string>, separator: char)
    requires |fields| >= 1 && forall i :: 0 <= i < |fields| ==> separator !in fields[i]
    ensures Split(Join(fields, separator), separator) == fields
  {
    hide FirstAt;
    if |fields| == 1 {
      FirstAfterField(fields[0], separator, "");
    } else {
      var rest := Join(fields[1..], separator);
      var s := Join(fields, separator);
      FirstAfterField(fields[0], separator, rest);
      SplitInvertsJoin(fields[1..], separator);
      assert s[..|fields[0]|] == fields[0] && s[|fields[0]| + 1..] == rest;
      assert fields == [fields[0]] + fields[1..];
    }
  }

  lemma FirstIs(s: string, separator: char, i: nat)
    requires i <= |s| && (i < |s| ==> s[i] == separator) && forall j :: 0 <= j < i ==> s[j] != separator
    ensures FirstAt(s, separator) == i
  {}
}
