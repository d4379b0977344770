/**
 * The two JavaScript string operations the action applies to the `repo` override:
 * `String.prototype.split` with a one-character separator and `String.prototype.trim`.
 */
module Text {

  /**
   * The characters `trim` removes: ECMAScript WhiteSpace (tab, vertical tab, form feed,
   * the byte order mark and every character of Unicode category Zs) and LineTerminator
   * (line feed, carriage return, line separator, paragraph separator).
   */
  predicate IsWhitespace(c: char) {
    c == '\t' || c == '\n' || c == '\U{000B}' || c == '\U{000C}' || c == '\r'
    || c == ' ' || c == '\U{00A0}' || c == '\U{1680}' || ('\U{2000}' <= c <= '\U{200A}')
    || c == '\U{2028}' || c == '\U{2029}' || c == '\U{202F}' || c == '\U{205F}'
    || c == '\U{3000}' || c == '\U{FEFF}'
  }

  /** Drops the leading whitespace: the result is the suffix of `s` after its whitespace prefix. */
  function TrimStart(s: string): (r: string)
    ensures |r| <= |s| && r == s[|s| - |r|..]
    ensures forall k :: 0 <= k < |s| - |r| ==> IsWhitespace(s[k])
    ensures r == [] || !IsWhitespace(r[0])
  {
    if s != [] && IsWhitespace(s[0]) then TrimStart(s[1..]) else s
  }

  /** Drops the trailing whitespace: the result is the prefix of `s` before its whitespace suffix. */
  function TrimEnd(s: string): (r: string)
    ensures |r| <= |s| && r == s[..|r|]
    ensures forall k :: |r| <= k < |s| ==> IsWhitespace(s[k])
    ensures r == [] || !IsWhitespace(r[|r| - 1])
  {
    if s != [] && IsWhitespace(s[|s| - 1]) then TrimEnd(s[..|s| - 1]) else s
  }

  /**
   * `s.trim()`: the slice of `s` left after removing whitespace at both ends. It is empty
   * exactly when `s` consists of whitespace only, and otherwise begins and ends with a
   * non-whitespace character.
   */
  function Trim(s: string): (r: string)
    ensures var i := |s| - |TrimStart(s)|;
      i + |r| <= |s| && r == s[i..i + |r|]
      && (forall k :: 0 <= k < i ==> IsWhitespace(s[k]))
      && (forall k :: i + |r| <= k < |s| ==> IsWhitespace(s[k]))
    ensures r == [] <==> forall k :: 0 <= k < |s| ==> IsWhitespace(s[k])
    ensures r == [] || (!IsWhitespace(r[0]) && !IsWhitespace(r[|r| - 1]))
  {
    TrimEnd(TrimStart(s))
  }

  /** The number of occurrences of `c` in `s`. */
  function Occurrences(s: string, c: char): nat {
    if s == [] then 0 else (if s[0] == c then 1 else 0) + Occurrences(s[1..], c)
  }

  /** `parts.join(sep)`: the parts with one separator between neighbours. */
  function Join(parts: seq<string>, sep: char): string
    requires |parts| >= 1
  {
    if |parts| == 1 then parts[0] else parts[0] + [sep] + Join(parts[1..], sep)
  }

  /**
   * `s.split(sep)`: the maximal separator-free pieces of `s`, one more than the separators
   * in `s` (so the empty string splits into one empty piece); joining them back gives `s`.
   */
  function Split(s: string, sep: char): (parts: seq<string>)
    ensures |parts| == Occurrences(s, sep) + 1
    ensures forall i :: 0 <= i < |parts| ==> sep !in parts[i]
    ensures Join(parts, sep) == s
  {
    if s == [] then [[]]
    else
      var rest := Split(s[1..], sep);
      if s[0] == sep then
        assert [s[0]] + s[1..] == s;
        [[]] + rest
      else
        assert [s[0]] + s[1..] == s;
        [[s[0]] + rest[0]] + rest[1..]
  }

  /** Splitting a separator-free word followed by `t` extends the first piece of `t` by that word. */
  lemma {:induction false} SplitAfterWord(w: string, t: string, sep: char)
    requires sep !in w
    ensures Split(w + t, sep) == [w + Split(t, sep)[0]] + Split(t, sep)[1..]
    decreases |w|
  {
    if w == [] {
      var parts := Split(t, sep);
      assert w + t == t && w + parts[0] == parts[0];
      assert [parts[0]] + parts[1..] == parts;
    } else {
      assert (w + t)[1..] == w[1..] + t;
      SplitAfterWord(w[1..], t, sep);
      assert [w[0]] + (w[1..] + Split(t, sep)[0]) == w + Split(t, sep)[0];
    }
  }

  /** A leading separator splits off an empty first piece. */
  lemma SplitAfterSeparator(t: string, sep: char)
    ensures Split([sep] + t, sep) == [[]] + Split(t, sep)
  {
    assert ([sep] + t)[1..] == t;
  }

  /** A separator-free word, a separator and then `t` split into the word and the pieces of `t`. */
  lemma SplitWordThenSeparator(w: string, t: string, sep: char)
    requires sep !in w
    ensures Split(w + ([sep] + t), sep) == [w] + Split(t, sep)
  {
    var rest := Split([sep] + t, sep);
    SplitAfterSeparator(t, sep);
    SplitAfterWord(w, [sep] + t, sep);
    assert w + rest[0] == w;
  }

  /** Split undoes Join when no part contains the separator. */
  lemma {:induction false} SplitJoin(parts: seq<string>, sep: char)
    requires |parts| >= 1
    requires forall i :: 0 <= i < |parts| ==> sep !in parts[i]
    ensures Split(Join(parts, sep), sep) == parts
    decreases |parts|
  {
    if |parts| == 1 {
      SplitAfterWord(parts[0], [], sep);
      assert parts[0] + [] == parts[0];
    } else {
      var tail := Join(parts[1..], sep);
      SplitJoin(parts[1..], sep);
      SplitWordThenSeparator(parts[0], tail, sep);
      assert Join(parts, sep) == parts[0] + ([sep] + tail);
      assert [parts[0]] + parts[1..] == parts;
    }
  }
}
