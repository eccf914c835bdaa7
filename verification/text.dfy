/** String operations of the .NET base library the model relies on, with
    their ordinal (character-by-character) semantics. */
module Text {

  /** `s.StartsWith(prefix)`, compared character by character. */
  predicate StartsWith(s: string, prefix: string) {
    |prefix| <= |s| && s[..|prefix|] == prefix
  }

  /** `s.Split(sep)`: the pieces between occurrences of `sep`, including the
      empty pieces around adjacent, leading or trailing separators. */
  function Split(s: string, sep: char): (parts: seq<string>)
    ensures |parts| >= 1
    ensures forall i | 0 <= i < |parts| :: sep !in parts[i]
  {
    if s == [] then [""]
    else
      var rest := Split(s[1..], sep);
      if s[0] == sep then [""] + rest
      else [[s[0]] + rest[0]] + rest[1..]
  }

  /** `string.Join(sep, parts)`. */
  function Join(parts: seq<string>, sep: string): string {
    if |parts| == 0 then ""
    else if |parts| == 1 then parts[0]
    else parts[0] + sep + Join(parts[1..], sep)
  }

  /** Joining the pieces of a split with the separator gives back the string. */
  lemma {:induction false} JoinSplit(s: string, sep: char)
    ensures Join(Split(s, sep), [sep]) == s
    decreases |s|
  {
    if s != [] {
      var rest := Split(s[1..], sep);
      JoinSplit(s[1..], sep);
      if s[0] == sep {
        assert Split(s, sep) == [""] + rest;
        assert ([""] + rest)[1..] == rest;
      } else {
        var parts := [[s[0]] + rest[0]] + rest[1..];
        assert Split(s, sep) == parts;
        if |rest| == 1 {
          assert Join(parts, [sep]) == [s[0]] + rest[0];
        } else {
          assert parts[1..] == rest[1..];
          assert Join(rest, [sep]) == rest[0] + [sep] + Join(rest[1..], [sep]);
        }
      }
    }
  }

  /** Splitting a join of separator-free pieces gives back the pieces. */
  lemma {:induction false} SplitJoin(parts: seq<string>, sep: char)
    requires |parts| >= 1
    requires forall i | 0 <= i < |parts| :: sep !in parts[i]
    ensures Split(Join(parts, [sep]), sep) == parts
    decreases |parts|, |parts[0]|
  {
    var head := parts[0];
    if head == [] {
      if |parts| > 1 {
        SplitJoin(parts[1..], sep);
        assert Join(parts, [sep]) == [sep] + Join(parts[1..], [sep]);
        assert [""] + parts[1..] == parts;
      }
    } else {
      var tail := [head[1..]] + parts[1..];
      assert tail[1..] == parts[1..];
      assert forall i | 0 <= i < |tail| :: sep !in tail[i] by {
        assert forall c | c in head[1..] :: c in head;
      }
      SplitJoin(tail, sep);
      assert head[0] != sep by { assert head[0] in head; }
      if |parts| == 1 {
        assert Join(parts, [sep]) == [head[0]] + head[1..];
      } else {
        assert Join(parts, [sep]) == [head[0]] + Join(tail, [sep]);
      }
      assert [head[0]] + head[1..] == head;
      var joined := Join(parts, [sep]);
      assert joined[1..] == Join(tail, [sep]);
      assert Split(joined, sep) == [[head[0]] + tail[0]] + tail[1..];
      assert [[head[0]] + tail[0]] + tail[1..] == parts;
    }
  }

  /** The simple upper-case mapping of ASCII letters; other characters are
      left as they are. */
  function AsciiUpper(c: char): char {
    if 'a' <= c <= 'z' then (c as int - 32) as char else c
  }

  /** `StringComparer.OrdinalIgnoreCase.Equals(a, b)` for ASCII text. */
  predicate EqualsIgnoreCase(a: string, b: string) {
    |a| == |b| && forall i | 0 <= i < |a| :: AsciiUpper(a[i]) == AsciiUpper(b[i])
  }
}
