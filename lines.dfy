/**
 How the channel file's text is cut into lines: Python's `str.splitlines()`
 (with its full set of line boundaries), the `filter(None, ...)` that drops
 empty lines, and the universal-newline translation that a file opened in
 text mode applies to what `read()` returns.
 */
module Lines {

  /**
   The line boundaries of `str.splitlines()`: line feed, carriage return,
   line tabulation, form feed, the three information separators 0x1C-0x1E,
   next line (0x85), line separator (0x2028) and paragraph separator (0x2029).
   A carriage return followed by a line feed is one boundary.
   */
  predicate IsLineBreak(ch: char)
  {
    || ch == '\n' || ch == '\r' || ch == '\U{0B}' || ch == '\U{0C}'
    || ch == '\U{1C}' || ch == '\U{1D}' || ch == '\U{1E}' || ch == '\U{85}'
    || ch == '\U{2028}' || ch == '\U{2029}'
  }

  /** `s` holds no line boundary. */
  predicate NoLineBreak(s: string)
  {
    forall k :: 0 <= k < |s| ==> !IsLineBreak(s[k])
  }

  /** The index of the first line boundary in `s`, or `|s|` when there is none. */
  function LineEnd(s: string): (i: nat)
    ensures i <= |s|
    ensures NoLineBreak(s[..i])
    ensures i < |s| ==> IsLineBreak(s[i])
  {
    if s == [] then 0
    else if IsLineBreak(s[0]) then 0
    else
      var j := LineEnd(s[1..]);
      assert s[..1 + j] == [s[0]] + s[1..][..j];
      1 + j
  }

  /** Where the next line starts after the boundary at `i` ("\r\n" is two characters long). */
  function NextLineStart(s: string, i: nat): (j: nat)
    requires i < |s|
    ensures i < j <= |s|
  {
    if s[i] == '\r' && i + 1 < |s| && s[i + 1] == '\n' then i + 2 else i + 1
  }

  /**
   Python's `s.splitlines()`: the lines of `s` without their boundaries. A
   boundary at the very end does not start an extra empty line, and the empty
   string has no lines.
   */
  function SplitLines(s: string): (r: seq<string>)
    ensures forall k :: 0 <= k < |r| ==> NoLineBreak(r[k])
    decreases |s|
  {
    if s == [] then []
    else
      var i := LineEnd(s);
      if i == |s| then [s] else [s[..i]] + SplitLines(s[NextLineStart(s, i)..])
  }

  /** `list(filter(None, xs))`: the non-empty strings of `xs`, in order. */
  function DropEmpty(xs: seq<string>): (r: seq<string>)
    ensures forall x :: x in r <==> x in xs && x != ""
    ensures |r| <= |xs|
  {
    if xs == [] then []
    else (if xs[0] == "" then [] else [xs[0]]) + DropEmpty(xs[1..])
  }

  /** The lines that `read_channels` iterates over: each is non-empty and holds no boundary. */
  function NonEmptyLines(s: string): (r: seq<string>)
    ensures |r| <= |SplitLines(s)|
    ensures forall k :: 0 <= k < |r| ==> r[k] != "" && NoLineBreak(r[k])
  {
    var xs := SplitLines(s);
    var r := DropEmpty(xs);
    assert forall k :: 0 <= k < |r| ==> r[k] != "" && NoLineBreak(r[k]) by {
      forall k | 0 <= k < |r| ensures r[k] != "" && NoLineBreak(r[k]) {
        assert r[k] in r;
        assert r[k] in xs;
        var j :| 0 <= j < |xs| && xs[j] == r[k];
      }
    }
    r
  }

  /**
   Universal-newline translation on reading a file in text mode: every
   "\r\n" and every other "\r" becomes "\n".
   */
  function UniversalNewlines(raw: string): (r: string)
    ensures '\r' !in r
    ensures |r| <= |raw|
  {
    if raw == [] then []
    else if raw[0] == '\r' then
      if |raw| > 1 && raw[1] == '\n' then "\n" + UniversalNewlines(raw[2..])
      else "\n" + UniversalNewlines(raw[1..])
    else [raw[0]] + UniversalNewlines(raw[1..])
  }

  lemma {:induction false} DropEmptyAppend(xs: seq<string>, ys: seq<string>)
    ensures DropEmpty(xs + ys) == DropEmpty(xs) + DropEmpty(ys)
    decreases |xs|
  {
    if xs == [] {
      assert xs + ys == ys;
    } else {
      assert (xs + ys)[1..] == xs[1..] + ys;
      DropEmptyAppend(xs[1..], ys);
    }
  }

  /** A non-empty string without boundaries is one line. */
  lemma SplitLinesSingle(b: string)
    requires b != [] && NoLineBreak(b)
    ensures SplitLines(b) == [b]
  {
    assert b[..LineEnd(b)] == b;
  }

  /**
   After text that is empty or ends in a line feed, a non-empty piece without
   boundaries is exactly one more line.
   */
  lemma {:induction false} SplitLinesAppendLine(a: string, b: string)
    requires a == [] || a[|a| - 1] == '\n'
    requires b != [] && NoLineBreak(b)
    ensures SplitLines(a + b) == SplitLines(a) + [b]
    decreases |a|
  {
    if a == [] {
      assert a + b == b;
      SplitLinesSingle(b);
    } else {
      var s := a + b;
      var i := LineEnd(a);
      assert i < |a|;
      assert s[..i] == a[..i];
      LineEndAppend(a, b);
      var j := NextLineStart(a, i);
      assert NextLineStart(s, i) == j;
      var rest := a[j..];
      assert s[j..] == rest + b;
      SplitLinesAppendLine(rest, b);
    }
  }

  /** The first boundary of `a + b` is that of `a`, or else the first boundary of `b` shifted past `a`. */
  lemma {:induction false} LineEndAppend(a: string, b: string)
    ensures LineEnd(a + b) == if LineEnd(a) < |a| then LineEnd(a) else |a| + LineEnd(b)
    decreases |a|
  {
    if a == [] {
      assert a + b == b;
    } else if !IsLineBreak(a[0]) {
      assert (a + b)[1..] == a[1..] + b;
      LineEndAppend(a[1..], b);
    }
  }

  /** Appending one line feed adds at most an empty line, so the non-empty lines stay the same. */
  lemma {:induction false} NonEmptyLinesAppendNewline(s: string)
    ensures NonEmptyLines(s + "\n") == NonEmptyLines(s)
    decreases |s|
  {
    var t := s + "\n";
    if s == [] {
      assert t == "\n";
      assert LineEnd(t) == 0;
      assert t[NextLineStart(t, 0)..] == [];
      assert SplitLines(t) == [""];
    } else {
      var i := LineEnd(s);
      if i == |s| {
        LineEndAppend(s, "\n");
        assert t[NextLineStart(t, i)..] == [];
        assert s[..i] == s;
        assert SplitLines(t) == [s];
      } else {
        LineEndAppend(s, "\n");
        var j := NextLineStart(s, i);
        assert t[..i] == s[..i];
        if s[i] == '\r' && i + 1 == |s| {
          assert NextLineStart(t, i) == i + 2 == |t|;
          assert SplitLines(t) == [s[..i]] + [];
          assert s[j..] == [];
          assert SplitLines(s) == [s[..i]] + [];
        } else {
          assert NextLineStart(t, i) == j;
          assert t[j..] == s[j..] + "\n";
          NonEmptyLinesAppendNewline(s[j..]);
          DropEmptyAppend([s[..i]], SplitLines(t[j..]));
          DropEmptyAppend([s[..i]], SplitLines(s[j..]));
        }
      }
    }
  }

  /** Text without carriage returns is left alone by the translation. */
  lemma {:induction false} UniversalNewlinesPlain(b: string)
    requires '\r' !in b
    ensures UniversalNewlines(b) == b
    decreases |b|
  {
    if b != [] {
      assert '\r' !in b[1..];
      UniversalNewlinesPlain(b[1..]);
    }
  }

  /** Text without carriage returns in front of the rest is kept as it is. */
  lemma {:induction false} UniversalNewlinesPrefix(a: string, b: string)
    requires '\r' !in a
    ensures UniversalNewlines(a + b) == a + UniversalNewlines(b)
    decreases |a|
  {
    if a == [] {
      assert a + b == b;
    } else {
      assert (a + b)[1..] == a[1..] + b;
      assert '\r' !in a[1..];
      UniversalNewlinesPrefix(a[1..], b);
    }
  }

  /**
   Reading text in text mode turns the first "\r\n", and the first carriage
   return not followed by a line feed, into one line feed; all before it is kept.
   */
  lemma UniversalNewlinesAtReturn(a: string, b: string)
    requires '\r' !in a
    ensures UniversalNewlines(a + "\r\n" + b) == a + "\n" + UniversalNewlines(b)
    ensures (b == [] || b[0] != '\n') ==>
      UniversalNewlines(a + "\r" + b) == a + "\n" + UniversalNewlines(b)
  {
    UniversalNewlinesPrefix(a, "\r\n" + b);
    assert a + "\r\n" + b == a + ("\r\n" + b);
    assert ("\r\n" + b)[2..] == b;
    UniversalNewlinesPrefix(a, "\r" + b);
    assert a + "\r" + b == a + ("\r" + b);
    assert ("\r" + b)[1..] == b;
  }

  /** A string without boundaries has its first boundary at its end. */
  lemma LineEndNone(a: string)
    requires NoLineBreak(a)
    ensures LineEnd(a) == |a|
  {
  }

  /**
   `splitlines()` cuts at the first boundary: a boundary-free piece, then one
   boundary ("\r\n", or a single boundary character that is not a carriage
   return followed by a line feed), then the rest, is the piece and the lines
   of the rest.
   */
  lemma SplitLinesAt(a: string, sep: string, b: string)
    requires NoLineBreak(a)
    requires sep == "\r\n" || (|sep| == 1 && IsLineBreak(sep[0]) && (sep[0] == '\r' ==> b == [] || b[0] != '\n'))
    ensures SplitLines(a + sep + b) == [a] + SplitLines(b)
  {
    var s := a + sep + b;
    var rest := sep + b;
    assert s == a + rest;
    LineEndNone(a);
    assert LineEnd(rest) == 0;
    LineEndAppend(a, rest);
    assert s[..|a|] == a;
    assert s[|a|..] == rest;
    assert NextLineStart(s, |a|) == |a| + |sep|;
    assert s[|a| + |sep|..] == b;
  }

  /** A character other than a carriage return is kept by the translation. */
  lemma UniversalNewlinesAtOther(a: string, ch: char, b: string)
    requires '\r' !in a && ch != '\r'
    ensures UniversalNewlines(a + [ch] + b) == a + [ch] + UniversalNewlines(b)
  {
    UniversalNewlinesPrefix(a, [ch] + b);
    assert a + [ch] + b == a + ([ch] + b);
    assert ([ch] + b)[1..] == b;
  }

  /**
   One step of `SplitLinesUniversalNewlines`: the raw text cut at its first
   boundary `sep`, which the translation turns into the single boundary `out`.
   */
  lemma SplitLinesTranslatedStep(a: string, sep: string, out: string, b: string)
    requires NoLineBreak(a)
    requires sep == "\r\n" || (|sep| == 1 && IsLineBreak(sep[0]) && (sep[0] == '\r' ==> b == [] || b[0] != '\n'))
    requires |out| == 1 && IsLineBreak(out[0]) && out[0] != '\r'
    requires UniversalNewlines(a + sep + b) == a + out + UniversalNewlines(b)
    requires SplitLines(UniversalNewlines(b)) == SplitLines(b)
    ensures SplitLines(UniversalNewlines(a + sep + b)) == SplitLines(a + sep + b)
  {
    SplitLinesAt(a, out, UniversalNewlines(b));
    SplitLinesAt(a, sep, b);
  }

  /** The boundaries of `str.splitlines()` include those the text-mode read translates, so the lines are the same. */
  lemma {:induction false} SplitLinesUniversalNewlines(raw: string)
    ensures SplitLines(UniversalNewlines(raw)) == SplitLines(raw)
    decreases |raw|
  {
    var i := LineEnd(raw);
    var a := raw[..i];
    assert '\r' !in a;
    if i == |raw| {
      assert a == raw;
      UniversalNewlinesPlain(raw);
    } else if raw[i] == '\r' && i + 1 < |raw| && raw[i + 1] == '\n' {
      var rest := raw[i + 2..];
      assert raw == a + "\r\n" + rest;
      UniversalNewlinesAtReturn(a, rest);
      SplitLinesUniversalNewlines(rest);
      SplitLinesTranslatedStep(a, "\r\n", "\n", rest);
    } else if raw[i] == '\r' {
      var rest := raw[i + 1..];
      assert raw == a + "\r" + rest;
      UniversalNewlinesAtReturn(a, rest);
      SplitLinesUniversalNewlines(rest);
      SplitLinesTranslatedStep(a, "\r", "\n", rest);
    } else {
      var rest := raw[i + 1..];
      assert raw == a + [raw[i]] + rest;
      UniversalNewlinesAtOther(a, raw[i], rest);
      SplitLinesUniversalNewlines(rest);
      SplitLinesTranslatedStep(a, [raw[i]], [raw[i]], rest);
    }
  }

  /** Text without carriage returns and line feeds appended to a file is read back as written. */
  lemma {:induction false} UniversalNewlinesAppend(a: string, b: string)
    requires '\r' !in b && '\n' !in b
    ensures UniversalNewlines(a + b) == UniversalNewlines(a) + b
    decreases |a|
  {
    var s := a + b;
    if a == [] {
      assert s == b;
      UniversalNewlinesPlain(b);
    } else if a[0] == '\r' && |a| == 1 {
      assert s == "\r" + b;
      assert s[1..] == b;
      if |s| > 1 {
        assert s[1] == b[0];
      }
      UniversalNewlinesPlain(b);
    } else if a[0] == '\r' && a[1] == '\n' {
      assert s[2..] == a[2..] + b;
      UniversalNewlinesAppend(a[2..], b);
    } else {
      assert s[1..] == a[1..] + b;
      UniversalNewlinesAppend(a[1..], b);
    }
  }

  /** A line feed appended after anything but a carriage return is read back as one line feed. */
  lemma {:induction false} UniversalNewlinesAppendNewline(a: string)
    requires a == [] || a[|a| - 1] != '\r'
    ensures UniversalNewlines(a + "\n") == UniversalNewlines(a) + "\n"
    decreases |a|
  {
    var s := a + "\n";
    if a == [] {
      assert s == "\n";
    } else if a[0] == '\r' {
      assert |a| > 1;
      if a[1] == '\n' {
        assert s[2..] == a[2..] + "\n";
        UniversalNewlinesAppendNewline(a[2..]);
      } else {
        assert s[1..] == a[1..] + "\n";
        UniversalNewlinesAppendNewline(a[1..]);
      }
    } else {
      assert s[1..] == a[1..] + "\n";
      UniversalNewlinesAppendNewline(a[1..]);
    }
  }

  /**
   The translated text is empty exactly when the raw text is, and it ends in a
   line feed exactly when the raw text ends in a line feed or a carriage return.
   */
  lemma {:induction false} UniversalNewlinesLast(raw: string)
    ensures (UniversalNewlines(raw) == []) == (raw == [])
    ensures raw != [] ==>
      (UniversalNewlines(raw)[|UniversalNewlines(raw)| - 1] == '\n' <==> raw[|raw| - 1] in "\n\r")
    decreases |raw|
  {
    var r := UniversalNewlines(raw);
    if raw == [] {
    } else if raw[0] == '\r' && |raw| > 1 && raw[1] == '\n' {
      var rest := raw[2..];
      UniversalNewlinesLast(rest);
      if rest != [] {
        assert raw[|raw| - 1] == rest[|rest| - 1];
        assert r[|r| - 1] == UniversalNewlines(rest)[|UniversalNewlines(rest)| - 1];
      } else {
        assert r == "\n";
      }
    } else {
      var rest := raw[1..];
      UniversalNewlinesLast(rest);
      if rest != [] {
        assert raw[|raw| - 1] == rest[|rest| - 1];
        assert r[|r| - 1] == UniversalNewlines(rest)[|UniversalNewlines(rest)| - 1];
      } else {
        assert raw == [raw[0]];
      }
    }
  }
}
