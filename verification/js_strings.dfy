/**
 The two JavaScript string operations the data loader relies on: `String.prototype.split`
 with a one-character separator and `String.prototype.trim`.
 */
module JsStrings {

  /** The code points `trim` removes: WhiteSpace and LineTerminator of section 12.2 and 12.3
      of ECMA-262 (tab, vertical tab, form feed, space, no-break space, byte order mark, the
      space separators of Unicode category Zs, line feed, carriage return, line and paragraph
      separator). */
  predicate IsWhitespace(ch: char) {
    var c := ch as int;
    || c == 0x09 || c == 0x0A || c == 0x0B || c == 0x0C || c == 0x0D || c == 0x20
    || c == 0xA0 || c == 0x1680 || (0x2000 <= c <= 0x200A) || c == 0x2028 || c == 0x2029
    || c == 0x202F || c == 0x205F || c == 0x3000 || c == 0xFEFF
  }

  /** Joins `parts` with `sep` between neighbours, as `Array.prototype.join` does. */
  function Join(parts: seq<string>, sep: char): string
  {
    if |parts| == 0 then ""
    else if |parts| == 1 then parts[0]
    else parts[0] + [sep] + Join(parts[1..], sep)
  }

  /** `s.split(sep)`: the maximal separator-free pieces of `s`, in order. There is always at
      least one piece, and joining the pieces with `sep` gives back `s`. */
  function Split(s: string, sep: char): (parts: seq<string>)
    ensures |parts| >= 1
    ensures forall i :: 0 <= i < |parts| ==> sep !in parts[i]
    ensures Join(parts, sep) == s
  {
    if |s| == 0 then [""]
    else
      var rest := Split(s[1..], sep);
      if s[0] == sep then
        assert s == [sep] + s[1..];
        [""] + rest
      else
        var parts := [[s[0]] + rest[0]] + rest[1..];
        assert parts[1..] == rest[1..];
        assert s == [s[0]] + s[1..];
        parts
  }

  /** Splitting undoes joining separator-free pieces. */
  lemma {:induction false} SplitJoin(parts: seq<string>, sep: char)
    requires |parts| >= 1
    requires forall i :: 0 <= i < |parts| ==> sep !in parts[i]
    ensures Split(Join(parts, sep), sep) == parts
    decreases |Join(parts, sep)|
  {
    var s := Join(parts, sep);
    if |parts[0]| > 0 {
      var head := parts[0];
      var shorter := [head[1..]] + parts[1..];
      assert shorter[1..] == parts[1..];
      assert Join(shorter, sep) == s[1..] by {
        if |parts| > 1 {
          assert s == head + [sep] + Join(parts[1..], sep);
        }
      }
      assert sep !in head[1..] by {
        assert head == [head[0]] + head[1..];
      }
      SplitJoin(shorter, sep);
      assert s[0] == head[0] != sep;
      assert [head[0]] + head[1..] == head;
      assert parts == [[s[0]] + Split(s[1..], sep)[0]] + Split(s[1..], sep)[1..];
    } else if |parts| > 1 {
      assert s == [sep] + Join(parts[1..], sep);
      assert s[1..] == Join(parts[1..], sep);
      SplitJoin(parts[1..], sep);
      assert parts == [""] + parts[1..];
    }
  }

  /** The number of leading whitespace characters of `s`. */
  function LeadingWhitespace(s: string): (n: nat)
    ensures n <= |s|
    ensures forall k :: 0 <= k < n ==> IsWhitespace(s[k])
    ensures n < |s| ==> !IsWhitespace(s[n])
  {
    if |s| > 0 && IsWhitespace(s[0]) then 1 + LeadingWhitespace(s[1..]) else 0
  }

  /** The number of trailing whitespace characters of `s`. */
  function TrailingWhitespace(s: string): (n: nat)
    ensures n <= |s|
    ensures forall k :: |s| - n <= k < |s| ==> IsWhitespace(s[k])
    ensures n < |s| ==> !IsWhitespace(s[|s| - n - 1])
  {
    if |s| > 0 && IsWhitespace(s[|s| - 1]) then 1 + TrailingWhitespace(s[..|s| - 1]) else 0
  }

  /** `s.trim()`: `s` with its leading and trailing whitespace removed. The result is a slice
      of `s`, everything cut off is whitespace, and the result neither starts nor ends with
      whitespace. */
  function Trim(s: string): (r: string)
    ensures exists i, j :: 0 <= i <= j <= |s| && r == s[i..j]
              && (forall k :: 0 <= k < i ==> IsWhitespace(s[k]))
              && (forall k :: j <= k < |s| ==> IsWhitespace(s[k]))
    ensures |r| > 0 ==> !IsWhitespace(r[0]) && !IsWhitespace(r[|r| - 1])
  {
    var front := LeadingWhitespace(s);
    var back := TrailingWhitespace(s[front..]);
    s[front..|s| - back]
  }

  /** Trimming twice trims no more than trimming once. */
  lemma TrimIdempotent(s: string)
    ensures Trim(Trim(s)) == Trim(s)
  {
    var t := Trim(s);
    assert LeadingWhitespace(t) == 0;
    assert TrailingWhitespace(t) == 0;
  }

  /** The position of the first occurrence of `c` in `s`. */
  function IndexOf(s: string, c: char): (i: nat)
    requires c in s
    ensures i < |s| && s[i] == c && c !in s[..i]
  {
    if s[0] == c then 0
    else
      assert c in s[1..] by { assert s == [s[0]] + s[1..]; }
      var i := 1 + IndexOf(s[1..], c);
      assert s[..i] == [s[0]] + s[1..][..i - 1];
      i
  }

  /** The position of the last occurrence of `c` in `s`. */
  function LastIndexOf(s: string, c: char): (i: nat)
    requires c in s
    ensures i < |s| && s[i] == c && c !in s[i + 1..]
  {
    if s[|s| - 1] == c then |s| - 1
    else
      assert c in s[..|s| - 1] by { assert s == s[..|s| - 1] + [s[|s| - 1]]; }
      var i := LastIndexOf(s[..|s| - 1], c);
      assert s[i + 1..] == s[..|s| - 1][i + 1..] + [s[|s| - 1]];
      i
  }

  /** The first piece of a split runs up to the first separator. */
  lemma {:induction false} SplitFirstPiece(s: string, sep: char)
    requires sep in s
    ensures Split(s, sep)[0] == s[..IndexOf(s, sep)]
    decreases |s|
  {
    if s[0] != sep {
      assert sep in s[1..] by { assert s == [s[0]] + s[1..]; }
      var rest := Split(s[1..], sep);
      if 1 < |s| && sep in s[1..] {
        SplitFirstPiece(s[1..], sep);
      }
      assert s[..IndexOf(s, sep)] == [s[0]] + s[1..][..IndexOf(s[1..], sep)];
    }
  }

  /** A string with the separator splits into at least two pieces. */
  lemma {:induction false} SplitCountsSeparator(s: string, sep: char)
    ensures |Split(s, sep)| >= 2 <==> sep in s
    decreases |s|
  {
    if |s| > 0 {
      assert s == [s[0]] + s[1..];
      SplitCountsSeparator(s[1..], sep);
    }
  }

  /** A split keeps the last piece of the split of its tail once that tail holds a separator. */
  lemma SplitKeepsLastPiece(s: string, sep: char)
    requires |s| > 0 && |Split(s[1..], sep)| >= 2
    ensures var parts, rest := Split(s, sep), Split(s[1..], sep);
            parts[|parts| - 1] == rest[|rest| - 1]
  {
    var rest := Split(s[1..], sep);
    if s[0] == sep {
      assert Split(s, sep) == [""] + rest;
    } else {
      assert Split(s, sep) == [[s[0]] + rest[0]] + rest[1..];
    }
  }

  /** A string that starts with the only separator splits into "" and the rest. */
  lemma SplitAtLeadingSeparator(s: string, sep: char)
    requires |s| > 0 && s[0] == sep && sep !in s[1..]
    ensures Split(s, sep) == ["", s[1..]]
    ensures LastIndexOf(s, sep) == 0
  {
    SplitWithoutSeparator(s[1..], sep);
  }

  /** The last piece of a split starts after the last separator. */
  lemma {:induction false} SplitLastPiece(s: string, sep: char)
    requires sep in s
    ensures Split(s, sep)[|Split(s, sep)| - 1] == s[LastIndexOf(s, sep) + 1..]
    decreases |s|
  {
    if sep in s[1..] {
      var tail := s[1..];
      var parts, rest := Split(s, sep), Split(tail, sep);
      SplitCountsSeparator(tail, sep);
      SplitKeepsLastPiece(s, sep);
      assert parts[|parts| - 1] == rest[|rest| - 1];
      SplitLastPiece(tail, sep);
      var j := LastIndexOf(tail, sep);
      assert rest[|rest| - 1] == tail[j + 1..];
      LastIndexAfterFirst(s, sep);
      assert tail[j + 1..] == s[j + 2..];
    } else {
      assert s[0] == sep by { assert s == [s[0]] + s[1..]; }
      SplitAtLeadingSeparator(s, sep);
    }
  }

  /** A string without the separator is its own single piece. */
  lemma SplitWithoutSeparator(s: string, sep: char)
    requires sep !in s
    ensures Split(s, sep) == [s]
  {
    assert Join(Split(s, sep), sep) == s;
    SplitCountsSeparator(s, sep);
  }

  /** The last separator of `s` lies in `s[1..]` when `s[1..]` has one. */
  lemma LastIndexAfterFirst(s: string, sep: char)
    requires |s| > 0 && sep in s[1..]
    ensures LastIndexOf(s, sep) == 1 + LastIndexOf(s[1..], sep)
  {
    var i := LastIndexOf(s, sep);
    var j := LastIndexOf(s[1..], sep);
    assert s[j + 1] == sep;
    assert s[1..][j + 1..] == s[j + 2..];
  }
}
