/**
 * The Python string operations the pipeline is built from, with Python's
 * semantics: `split` on a one-character separator, `join`, the `[:-2]` and
 * `[-2:]` slices, `rstrip(c)`, `strip()`, `lower()`, `in` and `replace(pat, '')`.
 */
module Strings {

  /** Python's `s.split(sep)`: never empty, and no piece contains `sep`. */
  function Split(s: string, sep: char): (parts: seq<string>)
    ensures |parts| >= 1
    ensures forall i :: 0 <= i < |parts| ==> sep !in parts[i]
    decreases |s|
  {
    if |s| == 0 then [""]
    else
      var rest := Split(s[1..], sep);
      if s[0] == sep then [""] + rest
      else [[s[0]] + rest[0]] + rest[1..]
  }

  /** Python's `sep.join(parts)`. */
  function Join(parts: seq<string>, sep: char): string
    decreases |parts|
  {
    if |parts| == 0 then ""
    else if |parts| == 1 then parts[0]
    else parts[0] + [sep] + Join(parts[1..], sep)
  }

  /** Joining the pieces of a split gives back the original string. */
  lemma {:induction false} JoinSplit(s: string, sep: char)
    ensures Join(Split(s, sep), sep) == s
    decreases |s|
  {
    if |s| > 0 {
      JoinSplit(s[1..], sep);
      var rest := Split(s[1..], sep);
      assert s == [s[0]] + s[1..];
      if s[0] == sep {
        assert Split(s, sep) == [""] + rest;
        assert ([""] + rest)[1..] == rest;
      } else {
        var parts := Split(s, sep);
        assert parts == [[s[0]] + rest[0]] + rest[1..];
        if |rest| > 1 {
          assert parts[1..] == rest[1..];
        }
      }
    }
  }

  /** A string without the separator splits into itself alone. */
  lemma {:induction false} SplitNoSep(s: string, sep: char)
    requires sep !in s
    ensures Split(s, sep) == [s]
    decreases |s|
  {
    if |s| > 0 {
      SplitNoSep(s[1..], sep);
      assert s == [s[0]] + s[1..];
    }
  }

  /** `s.split(sep)` has a single piece exactly when `sep` does not occur in `s`. */
  lemma SplitSingle(s: string, sep: char)
    ensures |Split(s, sep)| == 1 <==> sep !in s
  {
    JoinSplit(s, sep);
    if sep !in s {
      SplitNoSep(s, sep);
    }
  }

  /** How a split continues past the first character. */
  lemma SplitCons(c: char, t: string, sep: char)
    ensures Split([c] + t, sep) ==
      if c == sep then [""] + Split(t, sep) else [[c] + Split(t, sep)[0]] + Split(t, sep)[1..]
  {
    assert ([c] + t)[1..] == t;
  }

  /** Splitting distributes over a separator placed between two strings. */
  lemma {:induction false} SplitConcat(a: string, b: string, sep: char)
    ensures Split(a + [sep] + b, sep) == Split(a, sep) + Split(b, sep)
    decreases |a|
  {
    if |a| == 0 {
      assert a + [sep] + b == [sep] + b;
      SplitCons(sep, b, sep);
    } else {
      var c, tail := a[0], a[1..];
      assert a == [c] + tail;
      assert a + [sep] + b == [c] + (tail + [sep] + b);
      SplitConcat(tail, b, sep);
      SplitCons(c, tail, sep);
      SplitCons(c, tail + [sep] + b, sep);
      ConsAppend(c, Split(tail, sep), Split(b, sep), sep);
    }
  }

  /** The continuation step of `Split` commutes with appending further pieces. */
  lemma ConsAppend(c: char, left: seq<string>, right: seq<string>, sep: char)
    requires |left| >= 1
    ensures var both := left + right;
      (if c == sep then [""] + both else [[c] + both[0]] + both[1..]) ==
      (if c == sep then [""] + left else [[c] + left[0]] + left[1..]) + right
  {
    if c == sep {
      assert [""] + (left + right) == ([""] + left) + right;
    } else {
      assert (left + right)[1..] == left[1..] + right;
    }
  }

  /** A string ending in two separator-free tokens splits into the prefix's pieces and those two. */
  lemma SplitLastTwo(prefix: string, a: string, b: string, sep: char)
    requires sep !in a && sep !in b
    ensures Split(prefix + [sep] + a + [sep] + b, sep) == Split(prefix, sep) + [a, b]
  {
    assert prefix + [sep] + a + [sep] + b == prefix + [sep] + (a + [sep] + b);
    SplitConcat(prefix, a + [sep] + b, sep);
    SplitConcat(a, b, sep);
    SplitNoSep(a, sep);
    SplitNoSep(b, sep);
  }

  /** A last piece free of the separator adds exactly one piece to the split. */
  lemma SplitSnoc(a: string, b: string, sep: char)
    requires sep !in b
    ensures Split(a + [sep] + b, sep) == Split(a, sep) + [b]
  {
    SplitConcat(a, b, sep);
    SplitNoSep(b, sep);
  }

  /** Four separator-free pieces joined by the separator split back into themselves. */
  lemma SplitFour(a: string, b: string, c: string, d: string, sep: char)
    requires sep !in a && sep !in b && sep !in c && sep !in d
    ensures Split(a + [sep] + b + [sep] + c + [sep] + d, sep) == [a, b, c, d]
  {
    SplitNoSep(a, sep);
    SplitSnoc(a, b, sep);
    SplitSnoc(a + [sep] + b, c, sep);
    SplitSnoc(a + [sep] + b + [sep] + c, d, sep);
  }

  /** Three pieces join with a separator between each neighbouring pair. */
  lemma JoinThree(a: string, b: string, c: string, sep: char)
    ensures Join([a, b, c], sep) == a + [sep] + b + [sep] + c
  {
    assert [a, b, c][1..] == [b, c];
    assert [b, c][1..] == [c];
    assert Join([b, c], sep) == b + [sep] + c;
    assert Join([a, b, c], sep) == a + [sep] + (b + [sep] + c);
  }

  /** Joining a concatenation puts one separator between the two joins. */
  lemma {:induction false} JoinAppend(xs: seq<string>, ys: seq<string>, sep: char)
    requires |xs| >= 1 && |ys| >= 1
    ensures Join(xs + ys, sep) == Join(xs, sep) + [sep] + Join(ys, sep)
    decreases |xs|
  {
    if |xs| > 1 {
      assert (xs + ys)[1..] == xs[1..] + ys;
      JoinAppend(xs[1..], ys, sep);
    } else {
      assert (xs + ys)[1..] == ys;
    }
  }

  /** Splitting a join recovers the pieces, provided no piece holds the separator. */
  lemma {:induction false} SplitJoin(parts: seq<string>, sep: char)
    requires |parts| >= 1
    requires forall i :: 0 <= i < |parts| ==> sep !in parts[i]
    ensures Split(Join(parts, sep), sep) == parts
    decreases |parts|
  {
    SplitNoSep(parts[0], sep);
    if |parts| > 1 {
      SplitJoin(parts[1..], sep);
      SplitConcat(parts[0], Join(parts[1..], sep), sep);
      assert [parts[0]] + parts[1..] == parts;
    }
  }

  /** A character absent from `s` is absent from every piece of its split. */
  lemma {:induction false} SplitFree(s: string, sep: char, c: char)
    requires c !in s
    ensures forall i :: 0 <= i < |Split(s, sep)| ==> c !in Split(s, sep)[i]
    decreases |s|
  {
    if |s| > 0 {
      assert s == [s[0]] + s[1..];
      SplitFree(s[1..], sep, c);
    }
  }

  /** A character absent from every piece and different from the separator is absent from the join. */
  lemma {:induction false} JoinFree(parts: seq<string>, sep: char, c: char)
    requires c != sep
    requires forall i :: 0 <= i < |parts| ==> c !in parts[i]
    ensures c !in Join(parts, sep)
    decreases |parts|
  {
    if |parts| > 1 {
      JoinFree(parts[1..], sep, c);
    }
  }

  /** The first piece of a split is a prefix of the string, ending at the end or at a separator. */
  lemma {:induction false} SplitFirstIsPrefix(s: string, sep: char)
    ensures var first := Split(s, sep)[0];
      first <= s && (first == s || s[|first|] == sep)
    decreases |s|
  {
    if |s| > 0 && s[0] != sep {
      SplitFirstIsPrefix(s[1..], sep);
      assert s == [s[0]] + s[1..];
    }
  }

  /** Python's `xs[:-2]`. */
  function AllButLastTwo<T>(xs: seq<T>): seq<T>
  {
    if |xs| <= 2 then [] else xs[..|xs| - 2]
  }

  /** Python's `xs[-2:]`. */
  function LastTwo<T>(xs: seq<T>): seq<T>
  {
    if |xs| <= 2 then xs else xs[|xs| - 2..]
  }

  /** A join of two or more pieces ends with the last two, preceded by the join of the others and a separator. */
  lemma JoinLastTwo(parts: seq<string>, sep: char)
    requires |parts| >= 2
    ensures var n := |parts|;
      Join(parts, sep) ==
        (if n == 2 then "" else Join(AllButLastTwo(parts), sep) + [sep]) + parts[n - 2] + [sep] + parts[n - 1]
  {
    var n := |parts|;
    var pair := parts[n - 2..];
    assert pair[1..] == [parts[n - 1]];
    assert Join(pair, sep) == parts[n - 2] + [sep] + parts[n - 1];
    if n > 2 {
      var init := parts[..n - 2];
      assert parts == init + pair;
      JoinAppend(init, pair, sep);
    }
  }

  /** The two slices split a list in two, and the tail holds at most two elements. */
  lemma SlicesPartition<T>(xs: seq<T>)
    ensures AllButLastTwo(xs) + LastTwo(xs) == xs
    ensures |LastTwo(xs)| == if |xs| < 2 then |xs| else 2
  {
  }

  /** Python's `s.rstrip(c)`: the longest prefix of `s` that does not end with `c`. */
  function RStrip(s: string, c: char): (r: string)
    ensures r <= s
    ensures |r| == 0 || r[|r| - 1] != c
    ensures forall i :: |r| <= i < |s| ==> s[i] == c
    decreases |s|
  {
    if |s| > 0 && s[|s| - 1] == c then RStrip(s[..|s| - 1], c) else s
  }

  /** Stripping twice strips nothing more. */
  lemma RStripIdempotent(s: string, c: char)
    ensures RStrip(RStrip(s, c), c) == RStrip(s, c)
  {
  }

  /** The characters Python's `str.isspace` accepts, which `strip()` removes. */
  predicate IsSpace(ch: char)
  {
    || ch == ' '
    || '\t' <= ch <= '\r'
    || '\U{001C}' <= ch <= '\U{001F}'
    || ch == '\U{0085}' || ch == '\U{00A0}' || ch == '\U{1680}'
    || '\U{2000}' <= ch <= '\U{200A}'
    || ch == '\U{2028}' || ch == '\U{2029}' || ch == '\U{202F}' || ch == '\U{205F}'
    || ch == '\U{3000}'
  }

  /** Python's `s.lstrip()`: the longest suffix of `s` that does not start with white space. */
  function TrimStart(s: string): (r: string)
    ensures |r| <= |s| && r == s[|s| - |r|..]
    ensures |r| == 0 || !IsSpace(r[0])
    ensures forall i :: 0 <= i < |s| - |r| ==> IsSpace(s[i])
    decreases |s|
  {
    if |s| > 0 && IsSpace(s[0]) then TrimStart(s[1..]) else s
  }

  /** Python's `s.rstrip()`: the longest prefix of `s` that does not end with white space. */
  function TrimEnd(s: string): (r: string)
    ensures r <= s
    ensures |r| == 0 || !IsSpace(r[|r| - 1])
    ensures forall i :: |r| <= i < |s| ==> IsSpace(s[i])
    decreases |s|
  {
    if |s| > 0 && IsSpace(s[|s| - 1]) then TrimEnd(s[..|s| - 1]) else s
  }

  /** Python's `s.strip()`. */
  function Strip(s: string): string
  {
    TrimEnd(TrimStart(s))
  }

  /** A string that neither starts nor ends with white space is its own `strip()`. */
  lemma StripUnchanged(s: string)
    requires |s| == 0 || (!IsSpace(s[0]) && !IsSpace(s[|s| - 1]))
    ensures Strip(s) == s
  {
  }

  /** `strip()` leaves no white space at either end. */
  lemma StripTrimmed(s: string)
    ensures var r := Strip(s); |r| == 0 || (!IsSpace(r[0]) && !IsSpace(r[|r| - 1]))
  {
    var t := TrimStart(s);
    var r := TrimEnd(t);
    if |r| > 0 {
      assert r[0] == t[0];
    }
  }

  /** Upper-case letters `lower()` changes: ASCII `A`-`Z` and Latin-1 `À`-`Þ` except `×`. */
  predicate IsUpper(ch: char)
  {
    'A' <= ch <= 'Z' || ('\U{00C0}' <= ch <= '\U{00DE}' && ch != '\U{00D7}')
  }

  /** Lower-case letters `lower()` produces from those upper-case ones. */
  predicate IsLowerImage(ch: char)
  {
    'a' <= ch <= 'z' || ('\U{00E0}' <= ch <= '\U{00FE}' && ch != '\U{00F7}')
  }

  /**
   * `lower()` of one character: each capital becomes the small letter at the same place
   * of its alphabet (`A`-`Z` to `a`-`z`, `À`-`Þ` to `à`-`þ`), anything else is kept.
   */
  function LowerChar(ch: char): (r: char)
    ensures IsUpper(ch) ==> IsLowerImage(r)
    ensures 'A' <= ch <= 'Z' ==> r as int - 'a' as int == ch as int - 'A' as int
    ensures IsUpper(ch) && ch > 'Z' ==> r as int - 0xE0 == ch as int - 0xC0
    ensures !IsUpper(ch) ==> r == ch
  {
    if IsUpper(ch) then (ch as int + 32) as char else ch
  }

  /** Python's `s.lower()` on the letters of `IsUpper`. */
  function Lower(s: string): (r: string)
    ensures |r| == |s|
    ensures forall i :: 0 <= i < |s| ==> r[i] == LowerChar(s[i])
    decreases |s|
  {
    if |s| == 0 then "" else [LowerChar(s[0])] + Lower(s[1..])
  }

  /** Lower-casing twice is lower-casing once. */
  lemma LowerIdempotent(s: string)
    ensures Lower(Lower(s)) == Lower(s)
  {
    var once := Lower(s);
    assert forall i :: 0 <= i < |s| ==> !IsUpper(once[i]);
  }

  /** A character that is no letter is in `s.lower()` exactly when it is in `s`. */
  lemma LowerKeeps(s: string, ch: char)
    requires !IsUpper(ch) && !IsLowerImage(ch)
    ensures ch in Lower(s) <==> ch in s
  {
    var r := Lower(s);
    if ch in s {
      var i :| 0 <= i < |s| && s[i] == ch;
      assert r[i] == ch;
    }
    if ch in r {
      var i :| 0 <= i < |r| && r[i] == ch;
      assert s[i] == ch;
    }
  }

  /** `pat` occurs in `s` starting at index `i`. */
  predicate OccursAt(s: string, pat: string, i: int)
  {
    0 <= i && i + |pat| <= |s| && s[i..i + |pat|] == pat
  }

  /** Python's `pat in s`. */
  predicate Contains(s: string, pat: string)
    decreases |s|
  {
    pat <= s || (|s| > 0 && Contains(s[1..], pat))
  }

  /** An occurrence in the tail of `s` is an occurrence in `s` one index later. */
  lemma OccursShift(s: string, pat: string, i: int)
    requires |s| > 0 && i >= 0
    ensures OccursAt(s[1..], pat, i) <==> OccursAt(s, pat, i + 1)
  {
    if 0 <= i && i + |pat| <= |s| - 1 {
      assert s[1..][i..i + |pat|] == s[i + 1..i + 1 + |pat|];
    }
  }

  /** `pat in s` holds exactly when `pat` occurs at some index of `s`. */
  lemma {:induction false} ContainsOccurs(s: string, pat: string)
    ensures Contains(s, pat) <==> exists i :: OccursAt(s, pat, i)
    decreases |s|
  {
    if pat <= s {
      assert OccursAt(s, pat, 0);
    } else if |s| > 0 {
      ContainsOccurs(s[1..], pat);
      if Contains(s[1..], pat) {
        var i :| OccursAt(s[1..], pat, i);
        OccursShift(s, pat, i);
      }
      if i :| OccursAt(s, pat, i) {
        assert i != 0;
        OccursShift(s, pat, i - 1);
      }
    } else {
      assert forall i :: !OccursAt(s, pat, i);
    }
  }

  /** A non-empty pattern whose first character is missing from `s` is not in `s`. */
  lemma {:induction false} NotContainsWithoutLead(s: string, pat: string)
    requires |pat| > 0 && pat[0] !in s
    ensures !Contains(s, pat)
    decreases |s|
  {
    if |s| > 0 {
      assert s[0] != pat[0];
      NotContainsWithoutLead(s[1..], pat);
    }
  }

  /** Python's `s.replace(pat, '')`: every non-overlapping occurrence, left to right, removed. */
  function RemoveAll(s: string, pat: string): (r: string)
    requires |pat| > 0
    ensures |r| <= |s|
    ensures !Contains(s, pat) ==> r == s
    decreases |s|
  {
    if |s| < |pat| then s
    else if pat <= s then RemoveAll(s[|pat|..], pat)
    else [s[0]] + RemoveAll(s[1..], pat)
  }

  /**
   * Removing a pattern whose first character does not recur in it, from a string that ends
   * with one copy of it and holds no other, removes just that final copy.
   */
  lemma {:induction false} RemoveAllSuffix(t: string, pat: string)
    requires |pat| > 0
    requires forall i :: 0 < i < |pat| ==> pat[i] != pat[0]
    requires !Contains(t, pat)
    ensures RemoveAll(t + pat, pat) == t
    decreases |t|
  {
    var s := t + pat;
    if |t| == 0 {
      assert s == pat;
      assert s[|pat|..] == "";
    } else {
      assert !(pat <= s) by {
        if |t| >= |pat| {
          assert pat <= s ==> pat <= t;
        } else {
          assert s[|t|] == pat[0];
          assert pat[|t|] != pat[0];
        }
      }
      assert s[1..] == t[1..] + pat;
      RemoveAllSuffix(t[1..], pat);
    }
  }

  /**
   * The first occurrence is removed wherever it is: text before it that holds no
   * occurrence is kept, and removal goes on after it.
   */
  lemma {:induction false} RemoveAllFirst(a: string, pat: string, b: string)
    requires |pat| > 0
    requires forall i :: 0 <= i < |a| ==> !OccursAt(a + pat + b, pat, i)
    ensures RemoveAll(a + pat + b, pat) == a + RemoveAll(b, pat)
    decreases |a|
  {
    var s := a + pat + b;
    if |a| == 0 {
      assert s == pat + b;
      assert s[|pat|..] == b;
    } else {
      var t := a[1..] + pat + b;
      assert s[1..] == t;
      forall i | 0 <= i < |a[1..]| ensures !OccursAt(t, pat, i) {
        OccursShift(s, pat, i);
      }
      assert !(pat <= s) by {
        assert !OccursAt(s, pat, 0);
        assert s[0..|pat|] == s[..|pat|];
      }
      assert RemoveAll(s, pat) == [s[0]] + RemoveAll(t, pat);
      RemoveAllFirst(a[1..], pat, b);
      assert [a[0]] + (a[1..] + RemoveAll(b, pat)) == a + RemoveAll(b, pat);
    }
  }

  /**
   * Every copy is removed, not only a final one: with its lead character absent from
   * `a` and `b` and not repeated in it, `a` + `pat` + `b` + `pat` loses both copies.
   */
  lemma RemoveAllBothCopies(a: string, pat: string, b: string)
    requires |pat| > 0 && pat[0] !in a && pat[0] !in b
    requires forall i :: 0 < i < |pat| ==> pat[i] != pat[0]
    ensures RemoveAll(a + pat + b + pat, pat) == a + b
  {
    var s := a + pat + (b + pat);
    assert s == a + pat + b + pat;
    forall i | 0 <= i < |a| ensures !OccursAt(s, pat, i) {
      assert s[i] == a[i];
    }
    RemoveAllFirst(a, pat, b + pat);
    NotContainsWithoutLead(b, pat);
    RemoveAllSuffix(b, pat);
  }

  /** Python's `s.splitlines()` for text whose only line break is `\n`. */
  function SplitLines(s: string): (lines: seq<string>)
    ensures forall i :: 0 <= i < |lines| ==> '\n' !in lines[i]
  {
    if |s| == 0 then []
    else
      var pieces := Split(s, '\n');
      if pieces[|pieces| - 1] == "" then pieces[..|pieces| - 1] else pieces
  }

  /** Python's `'\n'.join(lines)`. */
  function JoinLines(lines: seq<string>): string
  {
    Join(lines, '\n')
  }

  /** A split whose last piece is empty comes from a string that ends with the separator. */
  lemma SplitEndsWithSep(s: string, sep: char)
    ensures var pieces := Split(s, sep);
      |s| > 0 && pieces[|pieces| - 1] == "" ==> s[|s| - 1] == sep
  {
    var pieces := Split(s, sep);
    var n := |pieces|;
    JoinSplit(s, sep);
    if n >= 2 {
      var init := pieces[..n - 1];
      assert pieces == init + [pieces[n - 1]];
      JoinAppend(init, [pieces[n - 1]], sep);
    } else {
      assert pieces == [pieces[0]];
    }
  }

  /**
   * The lines of a text joined with line breaks give the text back, but for a final
   * line break, which `splitlines()` does not turn into an empty last line.
   */
  lemma SplitLinesRejoin(s: string)
    ensures JoinLines(SplitLines(s)) + (if |s| > 0 && s[|s| - 1] == '\n' then "\n" else "") == s
  {
    if |s| > 0 {
      var pieces := Split(s, '\n');
      JoinSplit(s, '\n');
      if s[|s| - 1] == '\n' {
        var body := s[..|s| - 1];
        assert s == body + ['\n'] + "";
        SplitConcat(body, "", '\n');
        assert pieces == Split(body, '\n') + [""];
        assert pieces[..|pieces| - 1] == Split(body, '\n');
        JoinSplit(body, '\n');
      } else {
        SplitEndsWithSep(s, '\n');
      }
    }
  }

  /** Lines written each followed by a line break read back as the same lines. */
  lemma SplitLinesTerminated(lines: seq<string>)
    requires |lines| >= 1
    requires forall i :: 0 <= i < |lines| ==> '\n' !in lines[i]
    ensures SplitLines(JoinLines(lines) + "\n") == lines
  {
    var s := JoinLines(lines) + "\n";
    assert s == JoinLines(lines) + ['\n'] + "";
    SplitConcat(JoinLines(lines), "", '\n');
    SplitJoin(lines, '\n');
    assert Split(s, '\n') == lines + [""];
    assert (lines + [""])[..|lines|] == lines;
  }
}
