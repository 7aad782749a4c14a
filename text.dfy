/** The few string operations of JavaScript that the generator relies on:
    String.prototype.trim, String.prototype.split with a one-character
    separator, Array.prototype.join, and the cutting of a text into lines.
    Strings are sequences of characters; nothing here depends on an encoding. */
module Text {

  /** The code points ECMAScript counts as WhiteSpace or LineTerminator:
      exactly the characters that String.prototype.trim removes. */
  predicate IsWhitespace(c: char) {
    || c in {'\t', '\n', '\U{0B}', '\U{0C}', '\r', ' ', '\U{A0}', '\U{1680}'}
    || ('\U{2000}' <= c <= '\U{200A}')
    || c in {'\U{2028}', '\U{2029}', '\U{202F}', '\U{205F}', '\U{3000}', '\U{FEFF}'}
  }

  predicate AllWhitespace(s: string) {
    forall i | 0 <= i < |s| :: IsWhitespace(s[i])
  }

  /** Drops the whitespace at the front of `s`: the result is the longest
      suffix of `s` that does not start with whitespace, and what is dropped
      is whitespace only. */
  function TrimStart(s: string): (r: string)
    ensures |r| <= |s| && r == s[|s| - |r|..]
    ensures AllWhitespace(s[..|s| - |r|])
    ensures r == [] || !IsWhitespace(r[0])
  {
    if s != [] && IsWhitespace(s[0]) then TrimStart(s[1..]) else s
  }

  /** Drops the whitespace at the back of `s`, symmetrically to TrimStart. */
  function TrimEnd(s: string): (r: string)
    ensures |r| <= |s| && r == s[..|r|]
    ensures AllWhitespace(s[|r|..])
    ensures r == [] || !IsWhitespace(r[|r| - 1])
  {
    if s != [] && IsWhitespace(s[|s| - 1]) then TrimEnd(s[..|s| - 1]) else s
  }

  /** The number of whitespace characters String.prototype.trim drops at the front. */
  function LeadingLength(s: string): (n: nat)
    ensures n <= |s| && AllWhitespace(s[..n])
  {
    |s| - |TrimStart(s)|
  }

  /** String.prototype.trim: the part of `s` between its leading and its
      trailing whitespace. The three ensures determine the result uniquely. */
  function Trim(s: string): (r: string)
    ensures LeadingLength(s) + |r| <= |s| && r == s[LeadingLength(s)..LeadingLength(s) + |r|]
    ensures AllWhitespace(s[LeadingLength(s) + |r|..])
    ensures r == [] || (!IsWhitespace(r[0]) && !IsWhitespace(r[|r| - 1]))
  {
    var t := TrimStart(s);
    var r := TrimEnd(t);
    assert r != [] ==> r[0] == t[0];
    assert s[LeadingLength(s) + |r|..] == t[|r|..];
    r
  }

  /** A string trims to the empty string exactly when every one of its
      characters is whitespace. */
  lemma TrimEmptyIff(s: string)
    ensures Trim(s) == [] <==> AllWhitespace(s)
  {
    var n := LeadingLength(s);
    if Trim(s) == [] {
      assert s == s[..n] + s[n..];
    }
  }

  /** Trimming twice is trimming once. */
  lemma TrimIdempotent(s: string)
    ensures Trim(Trim(s)) == Trim(s)
  {
    var t := Trim(s);
    if t != [] {
      assert TrimStart(t) == t;
      assert TrimEnd(t) == t;
    }
  }

  /** Every character of Trim(s) is a character of `s`. */
  lemma TrimKeepsCharacters(s: string, c: char)
    requires c !in s
    ensures c !in Trim(s)
  {
  }

  /** The number of occurrences of `c` in `s`. */
  function Occurrences(s: string, c: char): (n: nat)
    ensures n <= |s|
    ensures n == 0 <==> c !in s
  {
    if s == [] then 0 else (if s[0] == c then 1 else 0) + Occurrences(s[1..], c)
  }

  /** String.prototype.split with a one-character separator: the pieces of
      `s` between the occurrences of `sep`. There is one piece more than
      there are separators, so "".split(",") is [""], and no piece contains
      the separator. */
  function Split(s: string, sep: char): (r: seq<string>)
    ensures |r| == Occurrences(s, sep) + 1
    ensures forall i | 0 <= i < |r| :: sep !in r[i]
  {
    if s == [] then [[]]
    else
      var rest := Split(s[1..], sep);
      if s[0] == sep then [[]] + rest else [[s[0]] + rest[0]] + rest[1..]
  }

  /** Array.prototype.join: the parts with `sep` between consecutive ones. */
  function Join(parts: seq<string>, sep: string): string {
    if |parts| == 0 then []
    else if |parts| == 1 then parts[0]
    else parts[0] + sep + Join(parts[1..], sep)
  }

  /** Joining the pieces of a split with the separator gives back the text. */
  lemma {:induction false} JoinSplit(s: string, sep: char)
    ensures Join(Split(s, sep), [sep]) == s
  {
    if s != [] {
      var rest := Split(s[1..], sep);
      JoinSplit(s[1..], sep);
      if s[0] == sep {
        JoinAfterEmpty(rest, [sep]);
      } else {
        JoinGlued(s[0], rest, [sep]);
      }
      assert s == [s[0]] + s[1..];
    }
  }

  /** An empty first part leaves the text starting with the separator. */
  lemma JoinAfterEmpty(parts: seq<string>, sep: string)
    requires |parts| >= 1
    ensures Join([[]] + parts, sep) == sep + Join(parts, sep)
  {
    assert ([[]] + parts)[1..] == parts;
  }

  /** A character glued to the first part comes first in the joined text. */
  lemma JoinGlued(c: char, parts: seq<string>, sep: string)
    requires |parts| >= 1
    ensures Join([[c] + parts[0]] + parts[1..], sep) == [c] + Join(parts, sep)
  {
    var glued := [[c] + parts[0]] + parts[1..];
    assert glued[1..] == parts[1..];
  }

  /** Splitting a text built by joining separator-free parts gives back the
      parts: Split is the inverse of Join. */
  lemma {:induction false} SplitJoin(parts: seq<string>, sep: char)
    requires |parts| >= 1
    requires forall i | 0 <= i < |parts| :: sep !in parts[i]
    ensures Split(Join(parts, [sep]), sep) == parts
  {
    if |parts| == 1 {
      SplitFree(parts[0], sep);
    } else {
      SplitJoin(parts[1..], sep);
      SplitFree(parts[0], sep);
      SplitAround(parts[0], Join(parts[1..], [sep]), sep);
    }
  }

  /** A text without the separator is one piece. */
  lemma {:induction false} SplitFree(s: string, sep: char)
    requires sep !in s
    ensures Split(s, sep) == [s]
  {
    if s != [] {
      SplitFree(s[1..], sep);
      assert s == [s[0]] + s[1..];
    }
  }

  /** A separator between two texts separates their pieces: the last piece
      of the left text is not glued to the first piece of the right one. */
  lemma {:induction false} SplitAround(a: string, b: string, sep: char)
    ensures Split(a + [sep] + b, sep) == Split(a, sep) + Split(b, sep)
  {
    if a == [] {
      assert a + [sep] + b == [sep] + b;
      SplitAfterSeparator(b, sep);
    } else {
      var t := a[1..] + [sep] + b;
      SplitAround(a[1..], b, sep);
      Uncons(a, sep, b);
      if a[0] == sep {
        SplitAroundSeparator(t, a[1..], b, sep);
      } else {
        SplitAroundCharacter(a[0], t, a[1..], b, sep);
      }
    }
  }

  /** A leading separator splits off an empty first piece. */
  lemma SplitAfterSeparator(t: string, sep: char)
    ensures Split([sep] + t, sep) == [[]] + Split(t, sep)
  {
    assert ([sep] + t)[0] == sep && ([sep] + t)[1..] == t;
  }

  /** Any other leading character joins the first piece. */
  lemma SplitAfterCharacter(c: char, t: string, sep: char)
    requires c != sep
    ensures var r := Split(t, sep); Split([c] + t, sep) == [[c] + r[0]] + r[1..]
  {
    assert ([c] + t)[0] == c && ([c] + t)[1..] == t;
  }

  /** The inductive step of SplitAround when the left text starts with the
      separator. */
  lemma SplitAroundSeparator(t: string, a: string, b: string, sep: char)
    requires Split(t, sep) == Split(a, sep) + Split(b, sep)
    ensures Split([sep] + t, sep) == Split([sep] + a, sep) + Split(b, sep)
  {
    SplitAfterSeparator(t, sep);
    SplitAfterSeparator(a, sep);
    ConsAppend([], Split(a, sep), Split(b, sep));
  }

  /** The inductive step of SplitAround when the left text starts with any
      other character. */
  lemma SplitAroundCharacter(c: char, t: string, a: string, b: string, sep: char)
    requires c != sep
    requires Split(t, sep) == Split(a, sep) + Split(b, sep)
    ensures Split([c] + t, sep) == Split([c] + a, sep) + Split(b, sep)
  {
    SplitAfterCharacter(c, t, sep);
    SplitAfterCharacter(c, a, sep);
    GlueFirst(c, Split(a, sep), Split(b, sep));
  }

  /** A non-empty text is its first character followed by the rest, also
      when a separator and more text follow it. */
  lemma Uncons(a: string, sep: char, b: string)
    requires a != []
    ensures a == [a[0]] + a[1..]
    ensures a + [sep] + b == [a[0]] + (a[1..] + [sep] + b)
  {
  }

  lemma ConsAppend<T>(x: T, left: seq<T>, right: seq<T>)
    ensures [x] + (left + right) == ([x] + left) + right
  {
  }

  /** Gluing a character to the first piece of `left + right` is gluing it
      to the first piece of `left`. */
  lemma GlueFirst(c: char, left: seq<string>, right: seq<string>)
    requires |left| >= 1
    ensures [[c] + (left + right)[0]] + (left + right)[1..] == ([[c] + left[0]] + left[1..]) + right
  {
    assert (left + right)[0] == left[0] && (left + right)[1..] == left[1..] + right;
  }

  /** The text whose lines are `lines`, each terminated by a newline. */
  function Unlines(lines: seq<string>): string {
    if lines == [] then [] else lines[0] + "\n" + Unlines(lines[1..])
  }

  /** The lines of a text: its pieces between newlines. A text ending with a
      newline has an empty last line. */
  function Lines(s: string): (r: seq<string>)
    ensures |r| >= 1
  {
    Split(s, '\n')
  }

  predicate NoNewlines(lines: seq<string>) {
    forall i | 0 <= i < |lines| :: '\n' !in lines[i]
  }

  /** Unlines distributes over concatenation of line lists. */
  lemma {:induction false} UnlinesAppend(a: seq<string>, b: seq<string>)
    ensures Unlines(a + b) == Unlines(a) + Unlines(b)
  {
    if a != [] {
      UnlinesAppend(a[1..], b);
      assert (a + b)[0] == a[0] && (a + b)[1..] == a[1..] + b;
      calc {
        Unlines(a + b);
        a[0] + "\n" + Unlines(a[1..] + b);
        a[0] + "\n" + (Unlines(a[1..]) + Unlines(b));
        (a[0] + "\n" + Unlines(a[1..])) + Unlines(b);
      }
    } else {
      assert a + b == b;
    }
  }

  /** Cutting into lines the text made of newline-free lines followed by
      more text gives back those lines, then the lines of the rest. */
  lemma {:induction false} LinesOfUnlines(lines: seq<string>, rest: string)
    requires NoNewlines(lines)
    ensures Lines(Unlines(lines) + rest) == lines + Lines(rest)
  {
    if lines != [] {
      var first, more := lines[0], Unlines(lines[1..]) + rest;
      calc {
        Lines(Unlines(lines) + rest);
        Split((first + "\n" + Unlines(lines[1..])) + rest, '\n');
        { assert (first + "\n" + Unlines(lines[1..])) + rest == first + ['\n'] + more; }
        Split(first + ['\n'] + more, '\n');
        { SplitAround(first, more, '\n'); }
        Split(first, '\n') + Split(more, '\n');
        { SplitFree(first, '\n');
          assert NoNewlines(lines[1..]);
          LinesOfUnlines(lines[1..], rest); }
        [first] + (lines[1..] + Lines(rest));
        { assert lines == [first] + lines[1..]; }
        lines + Lines(rest);
      }
    } else {
      assert Unlines(lines) + rest == rest;
    }
  }

  /** A text of newline-free lines around one line that may hold newlines:
      its lines are the lines before, the lines of the middle one, the lines
      after, and the empty line after the final newline. */
  lemma LinesAround(head: seq<string>, middle: string, tail: seq<string>)
    requires NoNewlines(head) && NoNewlines(tail)
    ensures Lines(Unlines(head + [middle] + tail)) == head + Lines(middle) + tail + [""]
  {
    calc {
      Lines(Unlines(head + [middle] + tail));
      { assert head + [middle] + tail == head + ([middle] + tail);
        UnlinesAppend(head, [middle] + tail); }
      Lines(Unlines(head) + Unlines([middle] + tail));
      { LinesOfUnlines(head, Unlines([middle] + tail)); }
      head + Lines(Unlines([middle] + tail));
      { assert ([middle] + tail)[1..] == tail;
        SplitAround(middle, Unlines(tail), '\n'); }
      head + (Lines(middle) + Lines(Unlines(tail)));
      { LinesOfUnlines(tail, "");
        assert Unlines(tail) + "" == Unlines(tail); }
      head + (Lines(middle) + (tail + [""]));
    }
  }

  /** Reading the lines of such a text by index. */
  lemma LinesAt(lines: seq<string>, head: seq<string>, middle: seq<string>, tail: seq<string>)
    requires lines == head + middle + tail + [""]
    ensures |lines| == |head| + |middle| + |tail| + 1
    ensures forall j | 0 <= j < |head| :: lines[j] == head[j]
    ensures forall j | 0 <= j < |middle| :: lines[|head| + j] == middle[j]
    ensures forall j | 0 <= j < |tail| :: lines[|head| + |middle| + j] == tail[j]
    ensures lines[|lines| - 1] == ""
  {
  }

  predicate IsPrefix(p: string, s: string) {
    |p| <= |s| && s[..|p|] == p
  }

  predicate IsSuffix(p: string, s: string) {
    |p| <= |s| && s[|s| - |p|..] == p
  }

  /** `t` occurs in `s` starting at index `i`. */
  predicate OccursAt(s: string, t: string, i: int) {
    0 <= i && i + |t| <= |s| && s[i..i + |t|] == t
  }

  /** `t` occurs somewhere in `s`. */
  predicate Contains(s: string, t: string) {
    exists i | 0 <= i <= |s| :: OccursAt(s, t, i)
  }

  lemma ContainsMiddle(a: string, t: string, b: string)
    ensures Contains(a + t + b, t)
  {
    assert OccursAt(a + t + b, t, |a|);
  }

  lemma ContainsRight(s: string, a: string, b: string)
    requires Contains(s, a + b)
    ensures Contains(s, b)
  {
    var i :| 0 <= i <= |s| && OccursAt(s, a + b, i);
    assert s[i + |a|..i + |a| + |b|] == (a + b)[|a|..];
    assert OccursAt(s, b, i + |a|);
  }

  lemma ContainsWider(s: string, t: string, a: string, b: string)
    requires Contains(s, t)
    ensures Contains(a + s + b, t)
  {
    var i :| 0 <= i <= |s| && OccursAt(s, t, i);
    assert (a + s + b)[|a| + i..|a| + i + |t|] == s[i..i + |t|];
    assert OccursAt(a + s + b, t, |a| + i);
  }

  /** Whatever occurs in one line occurs in the whole text. */
  lemma {:induction false} ContainsLine(lines: seq<string>, k: nat, t: string)
    requires k < |lines| && Contains(lines[k], t)
    ensures Contains(Unlines(lines), t)
  {
    if k == 0 {
      ContainsWider(lines[0], t, [], "\n" + Unlines(lines[1..]));
      assert [] + lines[0] + ("\n" + Unlines(lines[1..])) == Unlines(lines);
    } else {
      ContainsLine(lines[1..], k - 1, t);
      ContainsWider(Unlines(lines[1..]), t, lines[0] + "\n", []);
      assert lines[0] + "\n" + Unlines(lines[1..]) + [] == Unlines(lines);
    }
  }

  /** The text of a non-empty list of lines starts with its first line and
      ends with its last line, each with their newline. */
  lemma {:induction false} UnlinesEnds(lines: seq<string>)
    requires |lines| >= 1
    ensures IsPrefix(lines[0] + "\n", Unlines(lines))
    ensures IsSuffix(lines[|lines| - 1] + "\n", Unlines(lines))
  {
    var n := |lines|;
    UnlinesAppend(lines[..n - 1], [lines[n - 1]]);
    assert lines[..n - 1] + [lines[n - 1]] == lines;
    assert Unlines([lines[n - 1]]) == lines[n - 1] + "\n";
  }
}
