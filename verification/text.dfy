/** The handful of Python `str` and `list` operations the renderers use, on
    strings as sequences of code points (which is what Python's `len` counts). */
module Text {

  /** Python's `str.isspace` for one character: the characters `str.lstrip()` removes. */
  predicate IsSpace(c: char)
  {
    || c == ' '
    || '\t' <= c <= '\r'
    || '\U{1C}' <= c <= '\U{1F}'
    || c == '\U{85}' || c == '\U{A0}' || c == '\U{1680}'
    || '\U{2000}' <= c <= '\U{200A}'
    || c == '\U{2028}' || c == '\U{2029}' || c == '\U{202F}' || c == '\U{205F}' || c == '\U{3000}'
  }

  /** `s.lstrip()`: `s` without its whole leading run of whitespace; it is
      shorter than `s` exactly when `s` starts with whitespace. */
  function LStrip(s: string): (r: string)
    ensures |r| <= |s| && r == s[|s| - |r|..]
    ensures |r| < |s| <==> s != [] && IsSpace(s[0])
    ensures r == [] || !IsSpace(r[0])
    ensures forall i :: 0 <= i < |s| - |r| ==> IsSpace(s[i])
  {
    if s != [] && IsSpace(s[0]) then
      var r := LStrip(s[1..]);
      assert forall i :: 1 <= i < |s| - |r| ==> s[i] == s[1..][i - 1];
      r
    else s
  }

  /** `s.count(c)` for a single character: never more than the length of `s`. */
  function Count(s: string, c: char): (r: nat)
    ensures r <= |s|
  {
    if s == [] then 0 else (if s[0] == c then 1 else 0) + Count(s[1..], c)
  }


  /** `count` gives the number of occurrences: the multiplicity of `c` in `s`. */
  lemma {:induction false} CountIsMultiplicity(s: string, c: char)
    ensures Count(s, c) == multiset(s)[c]
  {
    if s != [] {
      CountIsMultiplicity(s[1..], c);
      assert s == [s[0]] + s[1..];
    }
  }

  /** A character is counted zero times exactly when it does not occur. */
  lemma {:induction false} CountZero(s: string, c: char)
    ensures Count(s, c) == 0 <==> c !in s
  {
    if s != [] {
      CountZero(s[1..], c);
      assert s == [s[0]] + s[1..];
    }
  }

  /** `s * n` */
  function Repeat(s: string, n: nat): (r: string)
    ensures |r| == |s| * n
    ensures forall i :: 0 <= i < |r| ==> r[i] in s
  {
    if n == 0 then "" else s + Repeat(s, n - 1)
  }

  /** Copy `j` of `s` in `s * n` sits at offset `j * |s|`. */
  lemma {:induction false} RepeatAt(s: string, n: nat, j: nat, k: nat)
    requires j < n && k < |s|
    ensures |s| * j + k < |Repeat(s, n)| && Repeat(s, n)[|s| * j + k] == s[k]
  {
    if j > 0 {
      RepeatAt(s, n - 1, j - 1, k);
      assert |s| * j + k == |s| + (|s| * (j - 1) + k);
    }
  }

  /** `s.split(sep)` for a one-character separator: the pieces between separators,
      so one more piece than there are separators, and never an empty list. */
  function Split(s: string, sep: char): (parts: seq<string>)
    ensures |parts| == Count(s, sep) + 1
    ensures forall i :: 0 <= i < |parts| ==> sep !in parts[i]
  {
    if s == [] then [""]
    else
      var rest := Split(s[1..], sep);
      if s[0] == sep then [""] + rest else [[s[0]] + rest[0]] + rest[1..]
  }

  /** `sep.join(parts)`: the first piece, then a separator and the join of the rest. */
  function Join(parts: seq<string>, sep: char): (r: string)
    ensures parts != [] ==> |parts[0]| <= |r| && r[..|parts[0]|] == parts[0]
    ensures |parts| > 1 ==> |parts[0]| < |r| && r[|parts[0]|] == sep
    ensures parts == [] ==> r == ""
  {
    if parts == [] then ""
    else if |parts| == 1 then parts[0]
    else parts[0] + [sep] + Join(parts[1..], sep)
  }

  /** Joining the pieces of a split gives back the text. */
  lemma {:induction false} JoinSplit(s: string, sep: char)
    ensures Join(Split(s, sep), sep) == s
  {
    if s != [] {
      JoinSplit(s[1..], sep);
      var rest := Split(s[1..], sep);
      if s[0] == sep {
        assert ([""] + rest)[1..] == rest;
      } else if |rest| > 1 {
        var parts := [[s[0]] + rest[0]] + rest[1..];
        assert parts[1..] == rest[1..];
        assert Join(rest, sep) == rest[0] + [sep] + Join(rest[1..], sep);
        assert Join(parts, sep) == [s[0]] + Join(rest, sep);
      }
    }
  }

  lemma {:induction false} SplitAppend(a: string, rest: string, sep: char)
    requires sep !in a
    ensures Split(a + rest, sep) == [a + Split(rest, sep)[0]] + Split(rest, sep)[1..]
  {
    var r := Split(rest, sep);
    if a != [] {
      var inner := Split(a[1..] + rest, sep);
      assert inner == [a[1..] + r[0]] + r[1..] by {
        SplitAppend(a[1..], rest, sep);
      }
      assert Split(a + rest, sep) == [[a[0]] + inner[0]] + inner[1..] by {
        assert (a + rest)[1..] == a[1..] + rest;
        assert (a + rest)[0] == a[0] && a[0] != sep;
      }
      assert inner[0] == a[1..] + r[0] && inner[1..] == r[1..];
      assert [a[0]] + (a[1..] + r[0]) == a + r[0];
    } else {
      assert a + rest == rest;
      assert a + r[0] == r[0];
      assert [r[0]] + r[1..] == r;
    }
  }

  /** Splitting the join of separator-free pieces gives back the pieces. */
  lemma {:induction false} SplitJoin(parts: seq<string>, sep: char)
    requires |parts| >= 1
    requires forall i :: 0 <= i < |parts| ==> sep !in parts[i]
    ensures Split(Join(parts, sep), sep) == parts
  {
    if |parts| == 1 {
      SplitAppend(parts[0], "", sep);
      assert parts[0] + "" == parts[0];
    } else {
      var tail := Join(parts[1..], sep);
      SplitJoin(parts[1..], sep);
      assert Split([sep] + tail, sep) == [""] + parts[1..] by {
        assert ([sep] + tail)[1..] == tail;
      }
      SplitAppend(parts[0], [sep] + tail, sep);
      assert parts[0] + [sep] + tail == parts[0] + ([sep] + tail);
      assert parts[0] + "" == parts[0];
      assert [parts[0]] + parts[1..] == parts;
    }
  }

  /** Each line followed by a line feed: the text the renderers build with
      `result += ... + "\n"`. */
  function Unlines(lines: seq<string>): string
  {
    if lines == [] then "" else lines[0] + "\n" + Unlines(lines[1..])
  }

  /** Joining pieces whose last one is empty ends with the separator. */
  lemma {:induction false} JoinEndsWithSeparator(parts: seq<string>, sep: char)
    requires |parts| >= 2 && parts[|parts| - 1] == ""
    ensures var s := Join(parts, sep); |s| > 0 && s[|s| - 1] == sep
  {
    if |parts| > 2 {
      JoinEndsWithSeparator(parts[1..], sep);
    }
  }

  /** Pieces free of the separator, the last one empty, join into text that
      splits back into them and ends with the separator. */
  lemma JoinTerminated(parts: seq<string>, sep: char)
    requires |parts| >= 2 && parts[|parts| - 1] == ""
    requires forall i :: 0 <= i < |parts| ==> sep !in parts[i]
    ensures var s := Join(parts, sep); Split(s, sep) == parts && |s| > 0 && s[|s| - 1] == sep
  {
    SplitJoin(parts, sep);
    JoinEndsWithSeparator(parts, sep);
  }

  lemma UnlinesCons(line: string, lines: seq<string>)
    ensures Unlines([line] + lines) == line + "\n" + Unlines(lines)
  {
    assert ([line] + lines)[1..] == lines;
  }

  /** Unlines gives the empty text for no lines, and otherwise text that ends
      with a line feed. */
  lemma {:induction false} UnlinesEnding(lines: seq<string>)
    ensures Unlines(lines) == "" <==> lines == []
    ensures Unlines(lines) != "" ==> Unlines(lines)[|Unlines(lines)| - 1] == '\n'
  {
    if lines != [] {
      UnlinesEnding(lines[1..]);
    }
  }

  lemma {:induction false} UnlinesAppend(a: seq<string>, b: seq<string>)
    ensures Unlines(a + b) == Unlines(a) + Unlines(b)
  {
    if a != [] {
      assert (a + b)[1..] == a[1..] + b;
      UnlinesAppend(a[1..], b);
    } else {
      assert a + b == b;
    }
  }

  lemma {:induction false} UnlinesIsJoin(lines: seq<string>)
    ensures Unlines(lines) == Join(lines + [""], '\n')
  {
    if lines != [] {
      UnlinesIsJoin(lines[1..]);
      assert (lines + [""])[1..] == lines[1..] + [""];
    }
  }

  /** Text made of line-feed-free lines splits back into those lines plus the
      empty piece after the final line feed. */
  lemma SplitUnlines(lines: seq<string>)
    requires forall i :: 0 <= i < |lines| ==> '\n' !in lines[i]
    ensures Split(Unlines(lines), '\n') == lines + [""]
  {
    UnlinesIsJoin(lines);
    SplitJoin(lines + [""], '\n');
  }

  /** `s.replace(a, b)` for single characters: every `a` becomes `b`. */
  function ReplaceAll(s: string, a: char, b: char): (r: string)
    ensures |r| == |s|
    ensures forall i :: 0 <= i < |s| ==> r[i] == (if s[i] == a then b else s[i])
  {
    if s == [] then [] else [if s[0] == a then b else s[0]] + ReplaceAll(s[1..], a, b)
  }

  /** `s.replace(a, b, n)` for single characters: the first `n` occurrences of `a` become `b`. */
  function ReplaceFirst(s: string, a: char, b: char, n: nat): (r: string)
    ensures |r| == |s|
    ensures forall i :: 0 <= i < |s| && s[i] != a ==> r[i] == s[i]
    ensures forall i :: 0 <= i < |s| && s[i] == a ==> r[i] == a || r[i] == b
  {
    if s == [] then []
    else if s[0] == a && n > 0 then [b] + ReplaceFirst(s[1..], a, b, n - 1)
    else [s[0]] + ReplaceFirst(s[1..], a, b, n)
  }

  /** An occurrence of `a` is replaced exactly when fewer than `n` occurrences precede it. */
  lemma {:induction false} ReplaceFirstAt(s: string, a: char, b: char, n: nat, i: nat)
    requires i < |s| && s[i] == a
    ensures ReplaceFirst(s, a, b, n)[i] == if Count(s[..i], a) < n then b else a
  {
    if i > 0 {
      var m := if s[0] == a && n > 0 then n - 1 else n;
      assert ReplaceFirst(s, a, b, n)[i] == ReplaceFirst(s[1..], a, b, m)[i - 1];
      assert Count(s[..i], a) == (if s[0] == a then 1 else 0) + Count(s[1..][..i - 1], a) by {
        assert s[..i][0] == s[0];
        assert s[..i][1..] == s[1..][..i - 1];
      }
      ReplaceFirstAt(s[1..], a, b, m, i - 1);
    } else {
      assert s[..0] == [];
    }
  }

  /** `s.ljust(width, fill)`: `s` padded on the right with `fill` up to `width`. */
  function LJust(s: string, width: nat, fill: char): (r: string)
    ensures |r| == if |s| >= width then |s| else width
    ensures r[..|s|] == s
    ensures forall i :: |s| <= i < |r| ==> r[i] == fill
  {
    if |s| >= width then s else s + Repeat([fill], width - |s|)
  }

  /** `max(len(line) for line in lines)` */
  function MaxLen(lines: seq<string>): (m: nat)
    requires |lines| >= 1
    ensures forall i :: 0 <= i < |lines| ==> |lines[i]| <= m
    ensures exists i :: 0 <= i < |lines| && |lines[i]| == m
  {
    if |lines| == 1 then |lines[0]|
    else
      var t := MaxLen(lines[1..]);
      if |lines[0]| >= t then |lines[0]| else t
  }
}
