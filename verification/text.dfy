/** The JavaScript string operations the core relies on, modelled on
    `seq<char>`: the whitespace class shared by the regular expression `\s` and
    `String.prototype.trim`, trimming, the `/\s+/g -> " "` normalisation,
    `String.prototype.split` with a string separator and `Array.prototype.join`. */
module Text {

  /** WhiteSpace and LineTerminator code points of ECMA-262: exactly the
      characters matched by `\s` and removed by `trim`. */
  predicate IsSpace(c: char) {
    || c == ' ' || c == '\t' || c == '\n' || c == '\r'
    || c == '\U{000B}' || c == '\U{000C}' || c == '\U{00A0}' || c == '\U{1680}'
    || ('\U{2000}' <= c <= '\U{200A}')
    || c == '\U{2028}' || c == '\U{2029}' || c == '\U{202F}' || c == '\U{205F}'
    || c == '\U{3000}' || c == '\U{FEFF}'
  }

  predicate AllSpace(s: string) {
    forall i :: 0 <= i < |s| ==> IsSpace(s[i])
  }

  /** No two adjacent characters are both whitespace. */
  predicate NoDoubleSpace(s: string) {
    forall i :: 0 < i < |s| ==> !IsSpace(s[i - 1]) || !IsSpace(s[i])
  }

  /** The shape `replace(/\s+/g, " ")` leaves behind: whitespace only as
      single plain spaces. */
  predicate Normalized(s: string) {
    && NoDoubleSpace(s)
    && forall i :: 0 <= i < |s| && IsSpace(s[i]) ==> s[i] == ' '
  }

  /** The non-whitespace characters of `s`, in order. */
  function Visible(s: string): (r: string)
    ensures |r| <= |s|
    ensures forall i :: 0 <= i < |r| ==> !IsSpace(r[i])
  {
    if s == [] then []
    else if IsSpace(s[0]) then Visible(s[1..])
    else [s[0]] + Visible(s[1..])
  }

  // ---------------------------------------------------------------------------
  // Trimming

  /** `String.prototype.trimStart`: drops the longest all-whitespace prefix. */
  function TrimStart(s: string): (r: string)
    ensures |r| <= |s| && r == s[|s| - |r|..]
    ensures AllSpace(s[..|s| - |r|])
    ensures r == [] || !IsSpace(r[0])
  {
    if s != [] && IsSpace(s[0]) then
      var r := TrimStart(s[1..]);
      TrimStartStep(s, r);
      r
    else s
  }

  /** A suffix of `s[1..]` behind a whitespace prefix is a suffix of `s`
      behind a whitespace prefix, when `s[0]` is whitespace too. */
  lemma TrimStartStep(s: string, r: string)
    requires s != [] && IsSpace(s[0])
    requires |r| <= |s| - 1 && r == s[1..][|s| - 1 - |r|..]
    requires AllSpace(s[1..][..|s| - 1 - |r|])
    ensures r == s[|s| - |r|..] && AllSpace(s[..|s| - |r|])
  {
    assert s[1..][..|s| - 1 - |r|] == s[1..|s| - |r|];
    assert s[..|s| - |r|] == [s[0]] + s[1..|s| - |r|];
  }

  /** `String.prototype.trimEnd`: drops the longest all-whitespace suffix. */
  function TrimEnd(s: string): (r: string)
    ensures |r| <= |s| && r == s[..|r|]
    ensures AllSpace(s[|r|..])
    ensures r == [] || !IsSpace(r[|r| - 1])
  {
    if s != [] && IsSpace(s[|s| - 1]) then
      var r := TrimEnd(s[..|s| - 1]);
      assert s[..|s| - 1][|r|..] == s[|r|..|s| - 1];
      assert s[|r|..] == s[|r|..|s| - 1] + [s[|s| - 1]];
      r
    else s
  }

  /** `String.prototype.trim`: drops whitespace at both ends. */
  function Trim(s: string): (r: string)
    ensures r == [] || (!IsSpace(r[0]) && !IsSpace(r[|r| - 1]))
  {
    TrimEnd(TrimStart(s))
  }

  /** `r` is the slice of `s` that starts at `a`, with only whitespace in
      front of it and behind it. */
  predicate SliceBetweenSpace(s: string, a: int, r: string) {
    && 0 <= a && a + |r| <= |s|
    && r == s[a..a + |r|]
    && AllSpace(s[..a])
    && AllSpace(s[a + |r|..])
  }

  /** `Trim` removes leading and trailing whitespace and nothing else: the
      result is the slice of `s` that starts where `TrimStart` stops, with
      only whitespace on either side of it. */
  lemma TrimIsSlice(s: string)
    ensures SliceBetweenSpace(s, |s| - |TrimStart(s)|, Trim(s))
  {
    var t := TrimStart(s);
    assert |t| <= |s| && t == s[|s| - |t|..] && AllSpace(s[..|s| - |t|]);
    var r := TrimEnd(t);
    assert |r| <= |t| && r == t[..|r|] && AllSpace(t[|r|..]);
    assert r == Trim(s);
    TrimCut(s, t, r);
  }

  /** A prefix of a suffix, with whitespace cut away at both ends, is a
      middle slice with whitespace on both sides. */
  lemma TrimCut(s: string, t: string, r: string)
    requires |t| <= |s| && t == s[|s| - |t|..] && AllSpace(s[..|s| - |t|])
    requires |r| <= |t| && r == t[..|r|] && AllSpace(t[|r|..])
    ensures SliceBetweenSpace(s, |s| - |t|, r)
  {
    var a := |s| - |t|;
    assert s[a + |r|..] == t[|r|..];
  }

  /** A string trims to the empty string exactly when it is all whitespace. */
  lemma TrimEmptyIff(s: string)
    ensures Trim(s) == [] <==> AllSpace(s)
  {
    var t := TrimStart(s);
    if !AllSpace(s) {
      var i :| 0 <= i < |s| && !IsSpace(s[i]);
      assert t[i - (|s| - |t|)] == s[i];
    }
  }

  // ---------------------------------------------------------------------------
  // Whitespace normalisation

  /** `s.replace(/\s+/g, " ")`: every maximal run of whitespace becomes one
      plain space. */
  function Collapse(s: string): (r: string)
    ensures Normalized(r)
    ensures Visible(r) == Visible(s)
    ensures |r| <= |s|
    ensures r == [] <==> s == []
    ensures r != [] ==> (IsSpace(r[0]) <==> IsSpace(s[0]))
  {
    if s == [] then []
    else if IsSpace(s[0]) then
      var rest := TrimStart(s);
      VisibleOfSpaces(s[..|s| - |rest|], rest);
      assert s[..|s| - |rest|] + rest == s;
      NormalizedCons(' ', Collapse(rest));
      [' '] + Collapse(rest)
    else
      assert Visible(s) == [s[0]] + Visible(s[1..]);
      NormalizedCons(s[0], Collapse(s[1..]));
      [s[0]] + Collapse(s[1..])
  }

  /** A character in front of normalised text keeps it normalised when it
      is a plain space followed by no whitespace, or not whitespace. */
  lemma NormalizedCons(c: char, r: string)
    requires Normalized(r)
    requires IsSpace(c) ==> c == ' ' && (r == [] || !IsSpace(r[0]))
    ensures Normalized([c] + r)
  {
    var s := [c] + r;
    forall i | 0 < i < |s| ensures !IsSpace(s[i - 1]) || !IsSpace(s[i]) {
      assert s[i] == r[i - 1];
      if i > 1 {
        assert s[i - 1] == r[i - 2];
      }
    }
  }

  /** A whitespace-only prefix contributes nothing visible. */
  lemma {:induction false} VisibleOfSpaces(w: string, t: string)
    requires AllSpace(w)
    ensures Visible(w + t) == Visible(t)
    decreases |w|
  {
    if w == [] {
      assert w + t == t;
    } else {
      assert (w + t)[1..] == w[1..] + t;
      assert Visible(w + t) == Visible((w + t)[1..]);
      VisibleOfSpaces(w[1..], t);
    }
  }

  /** Normalisation leaves already-normalised text unchanged, so it is
      idempotent; together with `Collapse`'s own contract, `Collapse(s) == s`
      holds exactly when `s` is `Normalized`. */
  lemma {:induction false} CollapseFixpoint(s: string)
    requires Normalized(s)
    ensures Collapse(s) == s
    decreases |s|
  {
    if s != [] {
      assert Normalized(s[1..]) by {
        forall i | 0 < i < |s[1..]|
          ensures !IsSpace(s[1..][i - 1]) || !IsSpace(s[1..][i])
        {
          assert s[1..][i - 1] == s[i] && s[1..][i] == s[i + 1];
        }
      }
      if IsSpace(s[0]) {
        assert |s| > 1 ==> !IsSpace(s[1]);
        assert TrimStart(s) == s[1..] by {
          assert TrimStart(s) == TrimStart(s[1..]);
        }
      }
      CollapseFixpoint(s[1..]);
    }
  }

  lemma CollapseIdempotent(s: string)
    ensures Collapse(Collapse(s)) == Collapse(s)
  {
    CollapseFixpoint(Collapse(s));
  }

  /** An all-whitespace front is trimmed away entirely, and trimming goes on
      into what follows. */
  lemma {:induction false} TrimStartSpaces(a: string, b: string)
    requires AllSpace(a)
    ensures TrimStart(a + b) == TrimStart(b)
    decreases |a|
  {
    if a == [] {
      assert a + b == b;
    } else {
      assert (a + b)[0] == a[0] && (a + b)[1..] == a[1..] + b;
      assert AllSpace(a[1..]) by {
        assert forall i :: 0 <= i < |a[1..]| ==> a[1..][i] == a[i + 1];
      }
      TrimStartSpaces(a[1..], b);
    }
  }

  /** A front that is not all whitespace stops the trimming before its end. */
  lemma {:induction false} TrimStartVisible(a: string, b: string)
    requires !AllSpace(a)
    ensures TrimStart(a + b) == TrimStart(a) + b
    decreases |a|
  {
    assert (a + b)[0] == a[0];
    if IsSpace(a[0]) {
      assert (a + b)[1..] == a[1..] + b;
      assert !AllSpace(a[1..]) by {
        var i :| 0 <= i < |a| && !IsSpace(a[i]);
        assert a[1..][i - 1] == a[i];
      }
      TrimStartVisible(a[1..], b);
    }
  }

  /** A non-empty whitespace run, wherever it stands, becomes one space. */
  lemma CollapseSpaces(w: string)
    requires w != [] && AllSpace(w)
    ensures Collapse(w) == " "
  {
  }

  /** Normalisation works piece by piece: a string cut anywhere but inside a
      whitespace run normalises to the concatenation of its pieces'
      normalisations. With `CollapseSpaces` and `Collapse([c]) == [c]` for a
      visible `c`, this determines `Collapse` on every input: "a  b"
      normalises to "a b". */
  lemma {:induction false} CollapseAppend(a: string, b: string)
    requires a == [] || b == [] || !IsSpace(a[|a| - 1]) || !IsSpace(b[0])
    ensures Collapse(a + b) == Collapse(a) + Collapse(b)
    decreases |a|, 1
  {
    if a == [] {
      assert a + b == b;
    } else if !IsSpace(a[0]) {
      assert a == [a[0]] + a[1..];
      if a[1..] != [] {
        assert a[1..][|a[1..]| - 1] == a[|a| - 1];
      }
      CollapseAppendVisible(a[0], a[1..], b);
    } else if AllSpace(a) {
      CollapseAppendSpaces(a, b);
    } else {
      CollapseAppendRun(a, b);
    }
  }

  /** `CollapseAppend` when the first piece starts with a visible
      character `c`. */
  lemma {:induction false} CollapseAppendVisible(c: char, s: string, b: string)
    requires !IsSpace(c)
    requires s == [] || b == [] || !IsSpace(s[|s| - 1]) || !IsSpace(b[0])
    ensures Collapse([c] + s + b) == Collapse([c] + s) + Collapse(b)
    decreases |s| + 1, 0
  {
    CollapseAppend(s, b);
    CollapseVisibleHead(c, s + b);
    CollapseVisibleHead(c, s);
    Associative([c], s, b);
    Associative([c], Collapse(s), Collapse(b));
  }

  /** `CollapseAppend` when `a` is one whitespace run. */
  lemma CollapseAppendSpaces(a: string, b: string)
    requires a != [] && AllSpace(a)
    requires b == [] || !IsSpace(b[0])
    ensures Collapse(a + b) == Collapse(a) + Collapse(b)
  {
    assert (a + b)[0] == a[0];
    CollapseSpaces(a);
    CollapseSpaceHead(a + b);
    TrimStartSpaces(a, b);
    assert TrimStart(b) == b;
  }

  /** `CollapseAppend` when `a` starts with a whitespace run that ends
      inside `a`. */
  lemma {:induction false} CollapseAppendRun(a: string, b: string)
    requires a != [] && IsSpace(a[0]) && !AllSpace(a)
    requires b == [] || !IsSpace(a[|a| - 1]) || !IsSpace(b[0])
    ensures Collapse(a + b) == Collapse(a) + Collapse(b)
    decreases |a|, 0
  {
    assert (a + b)[0] == a[0];
    CollapseSpaceHead(a);
    CollapseSpaceHead(a + b);
    TrimStartVisible(a, b);
    TrimStartKeepsEnd(a);
    var t := TrimStart(a);
    CollapseAppend(t, b);
    Associative(" ", Collapse(t), Collapse(b));
  }

  /** Trimming the front of a string that is not all whitespace leaves a
      non-empty suffix ending where the string ends, shorter when the
      string starts with whitespace. */
  lemma TrimStartKeepsEnd(a: string)
    requires !AllSpace(a)
    ensures var t := TrimStart(a);
            && t != [] && t[|t| - 1] == a[|a| - 1]
            && (IsSpace(a[0]) ==> |t| < |a|)
  {
    var t := TrimStart(a);
    assert |t| <= |a| && t == a[|a| - |t|..] && AllSpace(a[..|a| - |t|]);
    KeptSuffix(a, t);
  }

  /** A suffix behind an all-whitespace prefix of a string that is not all
      whitespace, and that does not start with whitespace itself, is
      non-empty, ends where the string ends, and is shorter than the string
      when the string starts with whitespace. */
  lemma KeptSuffix(a: string, t: string)
    requires !AllSpace(a)
    requires |t| <= |a| && t == a[|a| - |t|..] && AllSpace(a[..|a| - |t|])
    requires t == [] || !IsSpace(t[0])
    ensures t != [] && t[|t| - 1] == a[|a| - 1]
    ensures IsSpace(a[0]) ==> |t| < |a|
  {
    assert a[..|a| - 0] == a;
  }

  lemma Associative(x: string, y: string, z: string)
    ensures x + (y + z) == (x + y) + z
  {
  }

  lemma CollapseVisibleHead(c: char, s: string)
    requires !IsSpace(c)
    ensures Collapse([c] + s) == [c] + Collapse(s)
  {
    assert ([c] + s)[1..] == s;
  }

  lemma CollapseSpaceHead(s: string)
    requires s != [] && IsSpace(s[0])
    ensures Collapse(s) == " " + Collapse(TrimStart(s))
  {
  }

  // ---------------------------------------------------------------------------
  // Splitting and joining

  /** `Array.prototype.join(sep)` over strings; `[].join(sep)` is `""`. */
  function Join(parts: seq<string>, sep: string): string
  {
    if parts == [] then []
    else if |parts| == 1 then parts[0]
    else parts[0] + sep + Join(parts[1..], sep)
  }

  /** `s.split(sep)` for a non-empty string separator: scans left to right
      and cuts at every non-overlapping occurrence of `sep`. */
  function SplitOn(s: string, sep: string): (parts: seq<string>)
    requires |sep| > 0
    ensures |parts| >= 1
    decreases |s|
  {
    if s == [] then [[]]
    else if sep <= s then [[]] + SplitOn(s[|sep|..], sep)
    else
      var rest := SplitOn(s[1..], sep);
      [[s[0]] + rest[0]] + rest[1..]
  }

  /** Joining the pieces of a split with the same separator restores the
      original string. */
  lemma {:induction false} JoinSplit(s: string, sep: string)
    requires |sep| > 0
    ensures Join(SplitOn(s, sep), sep) == s
    decreases |s|
  {
    if s == [] {
    } else if sep <= s {
      var rest := SplitOn(s[|sep|..], sep);
      assert SplitOn(s, sep) == [[]] + rest;
      JoinSplit(s[|sep|..], sep);
      JoinEmptyFirst(rest, sep);
      assert s == sep + s[|sep|..];
    } else {
      var rest := SplitOn(s[1..], sep);
      assert SplitOn(s, sep) == [[s[0]] + rest[0]] + rest[1..];
      JoinSplit(s[1..], sep);
      JoinPrepend(s[0], rest, sep);
      assert [s[0]] + s[1..] == s;
    }
  }

  /** An empty first piece contributes just the separator. */
  lemma JoinEmptyFirst(parts: seq<string>, sep: string)
    requires |parts| >= 1
    ensures Join([[]] + parts, sep) == sep + Join(parts, sep)
  {
    assert ([[]] + parts)[1..] == parts;
  }

  /** A character added to the first piece comes first in the join. */
  lemma JoinPrepend(c: char, parts: seq<string>, sep: string)
    requires |parts| >= 1
    ensures Join([[c] + parts[0]] + parts[1..], sep) == [c] + Join(parts, sep)
  {
    var q := [[c] + parts[0]] + parts[1..];
    assert q[1..] == parts[1..];
    if |parts| > 1 {
      assert ([c] + parts[0]) + sep + Join(parts[1..], sep)
          == [c] + (parts[0] + sep + Join(parts[1..], sep));
    }
  }

  /** No occurrence of `sep` starts anywhere in `s`. */
  predicate FreeOf(s: string, sep: string) {
    forall i :: 0 <= i < |s| ==> !(sep <= s[i..])
  }

  /** A string free of the separator splits into itself alone. */
  lemma {:induction false} SplitWithoutSeparator(s: string, sep: string)
    requires |sep| > 0
    requires FreeOf(s, sep)
    ensures SplitOn(s, sep) == [s]
    decreases |s|
  {
    if s != [] {
      assert s[0..] == s;
      assert FreeOf(s[1..], sep) by {
        forall i | 0 <= i < |s[1..]| ensures !(sep <= s[1..][i..]) {
          assert s[1..][i..] == s[i + 1..];
        }
      }
      SplitWithoutSeparator(s[1..], sep);
      assert [s[0]] + s[1..] == s;
    }
  }

  /** A string without the character `c` is free of the separator `[c]`. */
  lemma CharFree(s: string, c: char)
    requires c !in s
    ensures FreeOf(s, [c])
  {
    forall i | 0 <= i < |s| ensures !([c] <= s[i..]) {
      assert s[i..][0] == s[i];
    }
  }

  /** Splitting a string whose first piece is `head` cuts `head` off. */
  lemma {:induction false} SplitAfterPiece(head: string, c: char, tail: string)
    requires c !in head
    ensures SplitOn(head + [c] + tail, [c]) == [head] + SplitOn(tail, [c])
    decreases |head|
  {
    var s := head + [c] + tail;
    if head == [] {
      assert [c] <= s;
      assert s[1..] == tail;
    } else {
      assert s[0] == head[0] && head[0] != c;
      assert !([c] <= s);
      assert c !in head[1..];
      assert s[1..] == head[1..] + [c] + tail;
      SplitAfterPiece(head[1..], c, tail);
      assert [head[0]] + head[1..] == head;
    }
  }

  /** Splitting lines that were joined with a separator they do not contain
      gives the lines back. */
  lemma {:induction false} SplitJoin(lines: seq<string>, c: char)
    requires |lines| >= 1
    requires forall i :: 0 <= i < |lines| ==> c !in lines[i]
    ensures SplitOn(Join(lines, [c]), [c]) == lines
    decreases |lines|
  {
    if |lines| == 1 {
      CharFree(lines[0], c);
      SplitWithoutSeparator(lines[0], [c]);
    } else {
      SplitAfterPiece(lines[0], c, Join(lines[1..], [c]));
      SplitJoin(lines[1..], c);
      assert [lines[0]] + lines[1..] == lines;
    }
  }

  /** Appending one more part to a non-empty join adds the separator and the
      part at the end. */
  lemma {:induction false} JoinAppend(parts: seq<string>, last: string, sep: string)
    requires parts != []
    ensures Join(parts + [last], sep) == Join(parts, sep) + sep + last
    decreases |parts|
  {
    if |parts| > 1 {
      assert (parts + [last])[1..] == parts[1..] + [last];
      JoinAppend(parts[1..], last, sep);
    }
  }
}
