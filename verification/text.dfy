/** The `string` and `StringBuilder` operations the generator builds its documents
    with: `AppendLine`, `string.Join`, `ToUpper`/`ToLower` on ASCII text and
    `string.Replace`. */
module Text {

  /** The text a `StringBuilder` holds after `AppendLine` of each line in turn,
      where `nl` is the platform newline. */
  function AppendLines(lines: seq<string>, nl: string): string
    decreases |lines|
  {
    if lines == [] then "" else lines[0] + nl + AppendLines(lines[1..], nl)
  }

  /** Concatenation is associative; stated once so that proofs about long
      documents need not rediscover it character by character. */
  lemma Associative(a: string, b: string, c: string)
    ensures a + b + c == a + (b + c)
  {
  }

  /** `string.Join(sep, parts)`: the parts with `sep` between neighbours. */
  function Join(sep: string, parts: seq<string>): string
    decreases |parts|
  {
    if parts == [] then ""
    else if |parts| == 1 then parts[0]
    else parts[0] + sep + Join(sep, parts[1..])
  }

  /** The upper-case form of an ASCII lower-case letter; other characters stay. */
  function UpperChar(c: char): char {
    if 'a' <= c <= 'z' then (c as int - 32) as char else c
  }

  /** The lower-case form of an ASCII upper-case letter; other characters stay. */
  function LowerChar(c: char): char {
    if 'A' <= c <= 'Z' then (c as int + 32) as char else c
  }

  /** `ToUpper` on text whose letters are ASCII. */
  function ToUpper(s: string): string {
    seq(|s|, i requires 0 <= i < |s| => UpperChar(s[i]))
  }

  /** `ToLower` on text whose letters are ASCII. */
  function ToLower(s: string): string {
    seq(|s|, i requires 0 <= i < |s| => LowerChar(s[i]))
  }

  /** `bool.ToString()`. */
  function BoolToString(b: bool): string {
    if b then "True" else "False"
  }

  /** `needle` occurs in `s` starting at position `i`. */
  predicate OccursAt(s: string, i: int, needle: string) {
    0 <= i && i + |needle| <= |s| && s[i..i + |needle|] == needle
  }

  /** `string.Replace(oldValue, newValue)`: every occurrence of `oldValue`, found
      left to right without overlap, replaced by `newValue`. An empty `oldValue`
      is an argument error in the source, hence the precondition. */
  function Replace(s: string, oldValue: string, newValue: string): string
    requires oldValue != ""
    decreases |s|
  {
    if |s| < |oldValue| then s
    else if s[..|oldValue|] == oldValue then newValue + Replace(s[|oldValue|..], oldValue, newValue)
    else [s[0]] + Replace(s[1..], oldValue, newValue)
  }

  /** Occurrences in `a + b` starting after the first character of `a` are
      occurrences in `a[1..] + b`, one position earlier. */
  lemma NoOccurrenceShift(a: string, b: string, needle: string)
    requires a != []
    requires forall i :: 0 <= i < |a| ==> !OccursAt(a + b, i, needle)
    ensures forall i :: 0 <= i < |a| - 1 ==> !OccursAt(a[1..] + b, i, needle)
  {
    var s := a + b;
    var t := a[1..] + b;
    assert t == s[1..];
    forall i | 0 <= i < |a| - 1
      ensures !OccursAt(t, i, needle)
    {
      assert !OccursAt(s, i + 1, needle);
      if i + |needle| <= |t| {
        assert t[i..i + |needle|] == s[i + 1..i + 1 + |needle|];
      }
    }
  }

  /** A prefix in which no occurrence starts passes through `Replace` unchanged. */
  lemma {:induction false} ReplaceSkip(a: string, b: string, oldValue: string, newValue: string)
    requires oldValue != ""
    requires forall i :: 0 <= i < |a| ==> !OccursAt(a + b, i, oldValue)
    ensures Replace(a + b, oldValue, newValue) == a + Replace(b, oldValue, newValue)
    decreases |a|
  {
    var s := a + b;
    if a == [] {
      assert s == b;
    } else if |s| < |oldValue| {
      assert Replace(b, oldValue, newValue) == b;
    } else {
      assert !OccursAt(s, 0, oldValue);
      assert s[1..] == a[1..] + b;
      assert Replace(s, oldValue, newValue) == [a[0]] + Replace(a[1..] + b, oldValue, newValue);
      NoOccurrenceShift(a, b, oldValue);
      ReplaceSkip(a[1..], b, oldValue, newValue);
      Associative([a[0]], a[1..], Replace(b, oldValue, newValue));
      assert [a[0]] + a[1..] == a;
    }
  }

  /** An occurrence at the front is replaced and the scan resumes after it. */
  lemma ReplaceHit(b: string, oldValue: string, newValue: string)
    requires oldValue != ""
    ensures Replace(oldValue + b, oldValue, newValue) == newValue + Replace(b, oldValue, newValue)
  {
    var s := oldValue + b;
    assert s[..|oldValue|] == oldValue;
    assert s[|oldValue|..] == b;
  }

  /** Text without occurrences is left unchanged by `Replace`. */
  lemma ReplaceNone(s: string, oldValue: string, newValue: string)
    requires oldValue != ""
    requires forall i :: 0 <= i < |s| ==> !OccursAt(s, i, oldValue)
    ensures Replace(s, oldValue, newValue) == s
  {
    assert s + "" == s;
    ReplaceSkip(s, "", oldValue, newValue);
  }
}
