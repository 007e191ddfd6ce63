/** The parts of Python's `str` that the chat backend and the scraper rely on:
    `isspace`, the `in` substring test, `replace`, `strip`, `split()` and `join`.
    Strings are sequences of Unicode scalar values. */
module Strings {

  /** Python's `str.isspace` on one character: the characters that `strip()` and
      `split()` without arguments treat as whitespace. */
  predicate IsWhitespace(c: char)
  {
    ('\t' <= c <= '\r')                       // \t \n \v \f \r
    || ('\U{1C}' <= c <= '\U{20}')             // file/group/record/unit separators, space
    || c == '\U{85}' || c == '\U{A0}' || c == '\U{1680}'
    || ('\U{2000}' <= c <= '\U{200A}')
    || c == '\U{2028}' || c == '\U{2029}' || c == '\U{202F}' || c == '\U{205F}'
    || c == '\U{3000}'
  }

  /** The usual separators are whitespace; ASCII letters and digits, and the
      marker's punctuation, are not. */
  lemma WhitespaceClassification(c: char)
    ensures c == ' ' || c == '\t' || c == '\n' || c == '\r' || c == '\U{B}' || c == '\U{C}' ==> IsWhitespace(c)
    ensures ('0' <= c <= '9' || 'a' <= c <= 'z' || 'A' <= c <= 'Z') ==> !IsWhitespace(c)
    ensures c == '[' || c == ']' || c == '_' ==> !IsWhitespace(c)
  {
  }

  predicate AllWhitespace(s: string)
  {
    forall k :: 0 <= k < |s| ==> IsWhitespace(s[k])
  }

  /** Neither end of `s` is whitespace (an empty string qualifies). */
  predicate NoEdgeWhitespace(s: string)
  {
    s == [] || (!IsWhitespace(s[0]) && !IsWhitespace(s[|s| - 1]))
  }

  predicate StartsWith(s: string, prefix: string)
  {
    |prefix| <= |s| && s[..|prefix|] == prefix
  }

  // ---------------------------------------------------------------------------
  // Substring test: Python's `pat in s`
  // ---------------------------------------------------------------------------

  /** `pat` occurs in `s` starting at index `i`. */
  ghost predicate OccursAt(s: string, pat: string, i: int)
  {
    0 <= i && i + |pat| <= |s| && s[i..i + |pat|] == pat
  }

  /** Python's `pat in s`, as a left-to-right scan. */
  predicate Contains(s: string, pat: string): (r: bool)
    ensures pat == [] ==> r
    ensures r ==> |pat| <= |s|
    decreases |s|
  {
    StartsWith(s, pat) || (s != [] && Contains(s[1..], pat))
  }

  /** A successful scan points at an occurrence. */
  lemma {:induction false} ContainsHasOccurrence(s: string, pat: string)
    requires Contains(s, pat)
    ensures exists i :: OccursAt(s, pat, i)
    decreases |s|
  {
    if StartsWith(s, pat) {
      assert OccursAt(s, pat, 0);
    } else {
      ContainsHasOccurrence(s[1..], pat);
      var i :| OccursAt(s[1..], pat, i);
      assert s[i + 1..i + 1 + |pat|] == s[1..][i..i + |pat|];
      assert OccursAt(s, pat, i + 1);
    }
  }

  /** Every occurrence is found by the scan. */
  lemma {:induction false} OccurrenceContains(s: string, pat: string, i: int)
    requires OccursAt(s, pat, i)
    ensures Contains(s, pat)
    decreases i
  {
    if i > 0 {
      assert s[1..][i - 1..i - 1 + |pat|] == s[i..i + |pat|];
      OccurrenceContains(s[1..], pat, i - 1);
    }
  }

  /** The scan agrees with the index-based definition of a substring, in both directions. */
  lemma ContainsIffOccurs(s: string, pat: string)
    ensures Contains(s, pat) <==> exists i :: OccursAt(s, pat, i)
  {
    if Contains(s, pat) {
      ContainsHasOccurrence(s, pat);
    }
    if i :| OccursAt(s, pat, i) {
      OccurrenceContains(s, pat, i);
    }
  }

  /** Text put in front of a string keeps what it contains. */
  lemma ContainsExtendLeft(a: string, b: string, pat: string)
    requires Contains(b, pat)
    ensures Contains(a + b, pat)
  {
    ContainsHasOccurrence(b, pat);
    var i :| OccursAt(b, pat, i);
    assert (a + b)[|a| + i..|a| + i + |pat|] == b[i..i + |pat|];
    OccurrenceContains(a + b, pat, |a| + i);
  }

  // ---------------------------------------------------------------------------
  // Python's `s.replace(pat, rep)` for a non-empty `pat`
  // ---------------------------------------------------------------------------

  /** Replaces every occurrence of `pat`, scanning left to right; occurrences
      do not overlap, and the text produced by a replacement is not rescanned. */
  function ReplaceAll(s: string, pat: string, rep: string): (r: string)
    requires |pat| > 0
    ensures |rep| <= |pat| ==> |r| <= |s|
    ensures |rep| == |pat| ==> |r| == |s|
    decreases |s|
  {
    if s == [] then []
    else if StartsWith(s, pat) then rep + ReplaceAll(s[|pat|..], pat, rep)
    else [s[0]] + ReplaceAll(s[1..], pat, rep)
  }

  /** Without an occurrence of `pat`, `replace` returns its input unchanged. */
  lemma {:induction false} ReplaceAllWithoutMatch(s: string, pat: string, rep: string)
    requires |pat| > 0
    requires !Contains(s, pat)
    ensures ReplaceAll(s, pat, rep) == s
    decreases |s|
  {
    if s != [] {
      ReplaceAllWithoutMatch(s[1..], pat, rep);
    }
  }

  /** With an occurrence of `pat`, replacing it by something no longer makes the
      string shorter by at least the difference in length. */
  lemma {:induction false} ReplaceAllShrinks(s: string, pat: string, rep: string)
    requires |pat| > 0 && |rep| <= |pat|
    requires Contains(s, pat)
    ensures |ReplaceAll(s, pat, rep)| <= |s| - (|pat| - |rep|)
    decreases |s|
  {
    if !StartsWith(s, pat) {
      ReplaceAllShrinks(s[1..], pat, rep);
    }
  }

  /** One step of the scan past a character that does not start `pat`. */
  lemma ReplaceAllSkipStep(s: string, pat: string, rep: string, i: nat)
    requires |pat| > 0 && 0 < i && i + |pat| <= |s|
    requires !StartsWith(s, pat)
    requires ReplaceAll(s[1..], pat, rep) == s[1..][..i - 1] + rep + ReplaceAll(s[1..][i - 1 + |pat|..], pat, rep)
    ensures ReplaceAll(s, pat, rep) == s[..i] + rep + ReplaceAll(s[i + |pat|..], pat, rep)
  {
    var t := s[1..];
    var x := ReplaceAll(s[i + |pat|..], pat, rep);
    assert t[i - 1 + |pat|..] == s[i + |pat|..];
    assert ReplaceAll(s, pat, rep) == [s[0]] + (t[..i - 1] + rep + x);
    Regroup([s[0]], t[..i - 1], rep, x);
    assert [s[0]] + t[..i - 1] == s[..i];
  }

  /** One step of the scan at an occurrence of `pat`. */
  lemma ReplaceAllMatchStep(s: string, pat: string, rep: string)
    requires |pat| > 0 && OccursAt(s, pat, 0)
    ensures ReplaceAll(s, pat, rep) == rep + ReplaceAll(s[|pat|..], pat, rep)
  {
    assert StartsWith(s, pat);
  }

  lemma Regroup(a: string, b: string, c: string, d: string)
    ensures a + (b + c + d) == (a + b) + c + d
  {
  }

  /** Dropping the first character of a string without an occurrence at 0
      shifts every occurrence one place to the left. */
  lemma ShiftOccurrences(s: string, pat: string, i: nat)
    requires 0 < i
    requires OccursAt(s, pat, i)
    requires forall j :: 0 <= j < i ==> !OccursAt(s, pat, j)
    ensures !StartsWith(s, pat)
    ensures OccursAt(s[1..], pat, i - 1)
    ensures forall j :: 0 <= j < i - 1 ==> !OccursAt(s[1..], pat, j)
  {
    assert !OccursAt(s, pat, 0);
    var t := s[1..];
    assert t[i - 1..i - 1 + |pat|] == s[i..i + |pat|];
    forall j | 0 <= j < i - 1 ensures !OccursAt(t, pat, j) {
      assert t[j..j + |pat|] == s[j + 1..j + 1 + |pat|];
      assert !OccursAt(s, pat, j + 1);
    }
  }

  /** Python's algorithm: find the leftmost occurrence at `i`, copy what precedes
      it, emit `rep`, and carry on after the occurrence. */
  lemma {:induction false} ReplaceAllLeftmost(s: string, pat: string, rep: string, i: nat)
    requires |pat| > 0
    requires OccursAt(s, pat, i)
    requires forall j :: 0 <= j < i ==> !OccursAt(s, pat, j)
    ensures ReplaceAll(s, pat, rep) == s[..i] + rep + ReplaceAll(s[i + |pat|..], pat, rep)
    decreases i, 2
  {
    if i == 0 {
      ReplaceAllMatchStep(s, pat, rep);
      assert s[..0] + rep == rep;
    } else {
      ReplaceAllLeftmostLater(s, pat, rep, i);
    }
  }

  /** The case of `ReplaceAllLeftmost` where the occurrence is not at the front. */
  lemma {:induction false} ReplaceAllLeftmostLater(s: string, pat: string, rep: string, i: nat)
    requires |pat| > 0 && 0 < i
    requires OccursAt(s, pat, i)
    requires forall j :: 0 <= j < i ==> !OccursAt(s, pat, j)
    ensures ReplaceAll(s, pat, rep) == s[..i] + rep + ReplaceAll(s[i + |pat|..], pat, rep)
    decreases i, 1
  {
    ShiftOccurrences(s, pat, i);
    ReplaceAllLeftmostShifted(s, pat, rep, i);
  }

  /** The step of `ReplaceAllLeftmostLater` once the occurrences are known to
      shift left by one in `s[1..]`. */
  lemma {:induction false} ReplaceAllLeftmostShifted(s: string, pat: string, rep: string, i: nat)
    requires |pat| > 0 && 0 < i && i + |pat| <= |s|
    requires !StartsWith(s, pat)
    requires OccursAt(s[1..], pat, i - 1)
    requires forall j :: 0 <= j < i - 1 ==> !OccursAt(s[1..], pat, j)
    ensures ReplaceAll(s, pat, rep) == s[..i] + rep + ReplaceAll(s[i + |pat|..], pat, rep)
    decreases i, 0
  {
    ReplaceAllLeftmost(s[1..], pat, rep, i - 1);
    ReplaceAllSkipStep(s, pat, rep, i);
  }

  /** A string too short to hold `pat` is left alone. */
  lemma ReplaceAllShort(s: string, pat: string, rep: string)
    requires |s| < |pat|
    ensures ReplaceAll(s, pat, rep) == s
  {
    if Contains(s, pat) {
      ContainsHasOccurrence(s, pat);
    }
    ReplaceAllWithoutMatch(s, pat, rep);
  }

  /** Removing `pat` from `pre + pat + post`, when `pat` starts nowhere inside
      `pre` and `post` is too short to hold it, leaves `pre + post`. */
  lemma RemoveOnlyOccurrence(pre: string, pat: string, post: string)
    requires |pat| > 0 && |post| < |pat|
    requires forall j :: 0 <= j < |pre| ==> !OccursAt(pre + pat + post, pat, j)
    ensures Contains(pre + pat + post, pat)
    ensures ReplaceAll(pre + pat + post, pat, "") == pre + post
  {
    var text := pre + pat + post;
    ThreePieces(pre, pat, post);
    OccurrenceContains(text, pat, |pre|);
    RemoveLastOccurrence(text, pat, |pre|);
  }

  /** Deleting the leftmost occurrence of `pat` at `i`, when too little follows it
      to hold another, deletes exactly that slice. */
  lemma RemoveLastOccurrence(text: string, pat: string, i: nat)
    requires |pat| > 0 && OccursAt(text, pat, i) && |text| < i + 2 * |pat|
    requires forall j :: 0 <= j < i ==> !OccursAt(text, pat, j)
    ensures ReplaceAll(text, pat, "") == text[..i] + text[i + |pat|..]
  {
    ReplaceAllLeftmost(text, pat, "", i);
    ReplaceAllShort(text[i + |pat|..], pat, "");
    assert text[..i] + "" == text[..i];
  }

  /** The three pieces of `a + b + c` are its slices. */
  lemma ThreePieces(a: string, b: string, c: string)
    ensures (a + b + c)[..|a|] == a
    ensures (a + b + c)[|a|..|a| + |b|] == b
    ensures (a + b + c)[|a| + |b|..] == c
  {
  }

  // ---------------------------------------------------------------------------
  // Python's `s.strip()`
  // ---------------------------------------------------------------------------

  /** `s` without its leading whitespace (Python's `lstrip()`). */
  function TrimStart(s: string): (r: string)
    ensures |r| <= |s| && r == s[|s| - |r|..]
    ensures AllWhitespace(s[..|s| - |r|])
    ensures r == [] || !IsWhitespace(r[0])
    decreases |s|
  {
    if s != [] && IsWhitespace(s[0]) then TrimStart(s[1..]) else s
  }

  /** `s` without its trailing whitespace (Python's `rstrip()`). */
  function TrimEnd(s: string): (r: string)
    ensures |r| <= |s| && r == s[..|r|]
    ensures AllWhitespace(s[|r|..])
    ensures r == [] || !IsWhitespace(r[|r| - 1])
    decreases |s|
  {
    if s != [] && IsWhitespace(s[|s| - 1]) then
      var r := TrimEnd(s[..|s| - 1]);
      assert s[|r|..] == s[..|s| - 1][|r|..] + [s[|s| - 1]];
      r
    else s
  }

  /** Python's `strip()`: the result is the slice of `s` that is left once the
      whitespace at both ends is removed, and neither of its ends is whitespace. */
  function Strip(s: string): (r: string)
    ensures NoEdgeWhitespace(r)
    ensures |r| <= |s|
  {
    TrimEnd(TrimStart(s))
  }

  /** What `strip()` removes is whitespace at the two ends and nothing else. */
  lemma StripIsSlice(s: string)
    ensures TrimmedAt(s, Strip(s), |s| - |TrimStart(s)|)
  {
    var t := TrimStart(s);
    assert Strip(s) == TrimEnd(t);
    TrimEndIsSlice(s, t, |s| - |t|);
  }

  /** Trimming the end of a whitespace-bounded suffix gives a whitespace-bounded slice. */
  lemma TrimEndIsSlice(s: string, t: string, i: int)
    requires 0 <= i <= |s| && t == s[i..] && AllWhitespace(s[..i])
    ensures TrimmedAt(s, TrimEnd(t), i)
  {
    SliceBetweenWhitespace(s, t, TrimEnd(t), i);
  }

  /** A whitespace-bounded prefix `r` of the whitespace-bounded suffix `t` of `s`
      is a whitespace-bounded slice of `s`. */
  lemma SliceBetweenWhitespace(s: string, t: string, r: string, i: int)
    requires 0 <= i <= |s| && t == s[i..] && |r| <= |t| && r == t[..|r|]
    requires AllWhitespace(s[..i]) && AllWhitespace(t[|r|..])
    ensures TrimmedAt(s, r, i)
  {
    assert s[i..i + |r|] == r;
    assert s[i + |r|..] == t[|r|..];
  }

  /** `r` is the slice of `s` at `i`, and everything around it is whitespace. */
  ghost predicate TrimmedAt(s: string, r: string, i: int)
  {
    0 <= i <= |s| - |r| && s[i..i + |r|] == r && AllWhitespace(s[..i]) && AllWhitespace(s[i + |r|..])
  }

  /** A string whose ends are not whitespace is left alone by `strip()`. */
  lemma StripKeepsTrimmed(s: string)
    requires NoEdgeWhitespace(s)
    ensures Strip(s) == s
  {
  }

  /** One trailing space after trimmed text is stripped away. */
  lemma StripTrailingSpace(body: string)
    requires NoEdgeWhitespace(body)
    ensures Strip(body + " ") == body
  {
    var t := body + " ";
    assert t[..|t| - 1] == body;
    assert IsWhitespace(t[|t| - 1]);
    if body == [] {
      assert TrimStart(t) == TrimStart(t[1..]);
      assert t[1..] == [];
    } else {
      assert t[0] == body[0];
      assert TrimStart(t) == t;
      assert TrimEnd(t) == TrimEnd(body);
      assert TrimEnd(body) == body;
    }
  }

  lemma StripIdempotent(s: string)
    ensures Strip(Strip(s)) == Strip(s)
  {
    StripKeepsTrimmed(Strip(s));
  }

  // ---------------------------------------------------------------------------
  // Python's `s.split()` (no separator) and `sep.join(words)`
  // ---------------------------------------------------------------------------

  /** A word as `split()` produces it: non-empty, no whitespace. */
  predicate IsWord(w: string)
  {
    |w| > 0 && forall k :: 0 <= k < |w| ==> !IsWhitespace(w[k])
  }

  /** Length of the run of non-whitespace characters at the front of `s`. */
  function WordLength(s: string): (n: nat)
    ensures n <= |s|
    ensures forall k :: 0 <= k < n ==> !IsWhitespace(s[k])
    ensures n < |s| ==> IsWhitespace(s[n])
    decreases |s|
  {
    if s == [] || IsWhitespace(s[0]) then 0 else 1 + WordLength(s[1..])
  }

  /** Python's `s.split()`: the maximal runs of non-whitespace characters, in
      order; runs of whitespace separate them and the ends are ignored. */
  function Split(s: string): (words: seq<string>)
    ensures forall k :: 0 <= k < |words| ==> IsWord(words[k])
    decreases |s|
  {
    if s == [] then []
    else if IsWhitespace(s[0]) then Split(s[1..])
    else
      var n := WordLength(s);
      [s[..n]] + Split(s[n..])
  }

  /** The number of characters in all the words together. */
  function TotalLength(words: seq<string>): (n: nat)
  {
    if words == [] then 0 else |words[0]| + TotalLength(words[1..])
  }

  /** Python's `sep.join(words)`. */
  function Join(words: seq<string>, sep: string): (joined: string)
    ensures words == [] ==> joined == []
    ensures words != [] ==> |joined| == TotalLength(words) + (|words| - 1) * |sep|
  {
    if words == [] then []
    else if |words| == 1 then words[0]
    else words[0] + sep + Join(words[1..], sep)
  }

  /** `split()` finds no word exactly when the string is all whitespace. */
  lemma {:induction false} SplitEmptyIffAllWhitespace(s: string)
    ensures Split(s) == [] <==> AllWhitespace(s)
    decreases |s|
  {
    if s != [] {
      if IsWhitespace(s[0]) {
        SplitEmptyIffAllWhitespace(s[1..]);
        if AllWhitespace(s[1..]) {
          forall k | 0 <= k < |s| ensures IsWhitespace(s[k]) {
            if k > 0 { assert s[k] == s[1..][k - 1]; }
          }
        }
      }
    }
  }

  /** Splitting a string that starts with a word and continues with whitespace
      (or ends) yields that word first. */
  lemma SplitLeadingWord(w: string, rest: string)
    requires IsWord(w)
    requires rest == [] || IsWhitespace(rest[0])
    ensures Split(w + rest) == [w] + Split(rest)
  {
    var s := w + rest;
    WordLengthOfWord(w, rest);
    assert s[..|w|] == w;
    assert s[|w|..] == rest;
  }

  /** A whitespace character in front of `s` is skipped: it does not change how
      the rest splits. */
  lemma SplitSkipsWhitespace(c: char, s: string)
    requires IsWhitespace(c)
    ensures Split([c] + s) == Split(s)
  {
    assert ([c] + s)[1..] == s;
  }

  /** A whole run of whitespace in front of `s` is skipped. */
  lemma {:induction false} SplitSkipsWhitespaceRun(ws: string, s: string)
    requires AllWhitespace(ws)
    ensures Split(ws + s) == Split(s)
    decreases |ws|
  {
    if ws == [] {
      assert ws + s == s;
    } else {
      assert ws + s == [ws[0]] + (ws[1..] + s);
      SplitSkipsWhitespace(ws[0], ws[1..] + s);
      SplitSkipsWhitespaceRun(ws[1..], s);
    }
  }

  /** Two words separated by any whitespace run split into exactly those two words,
      so a split never breaks a word apart. */
  lemma SplitTwoWords(a: string, ws: string, b: string)
    requires IsWord(a) && IsWord(b) && ws != [] && AllWhitespace(ws)
    ensures Split(a + ws + b) == [a, b]
  {
    assert a + ws + b == a + (ws + b);
    SplitLeadingWord(a, ws + b);
    SplitSkipsWhitespaceRun(ws, b);
    assert b + [] == b;
    SplitLeadingWord(b, []);
  }

  lemma {:induction false} WordLengthOfWord(w: string, rest: string)
    requires forall k :: 0 <= k < |w| ==> !IsWhitespace(w[k])
    requires rest == [] || IsWhitespace(rest[0])
    ensures WordLength(w + rest) == |w|
    decreases |w|
  {
    if w != [] {
      assert (w + rest)[1..] == w[1..] + rest;
      WordLengthOfWord(w[1..], rest);
    }
  }

  /** Joining words with one space and splitting again gives back the words. */
  lemma {:induction false} SplitJoin(words: seq<string>)
    requires forall k :: 0 <= k < |words| ==> IsWord(words[k])
    ensures Split(Join(words, " ")) == words
    decreases |words|
  {
    if words == [] {
    } else if |words| == 1 {
      SplitLeadingWord(words[0], []);
      assert words[0] + [] == words[0];
    } else {
      var tail := Join(words[1..], " ");
      SplitJoin(words[1..]);
      assert words[0] + " " + tail == words[0] + (" " + tail);
      SplitLeadingWord(words[0], " " + tail);
      assert (" " + tail)[1..] == tail;
    }
  }

  /** Words joined by one space: the result is empty only for no words, its ends
      are not whitespace, its only whitespace characters are the separating
      spaces, and no two spaces are adjacent. */
  lemma {:induction false} JoinedWordsShape(words: seq<string>)
    requires forall k :: 0 <= k < |words| ==> IsWord(words[k])
    ensures Join(words, " ") == [] <==> words == []
    ensures NoEdgeWhitespace(Join(words, " "))
    ensures forall k :: (0 <= k < |Join(words, " ")| && IsWhitespace(Join(words, " ")[k]))
                         ==> Join(words, " ")[k] == ' '
    ensures forall k :: (0 <= k < |Join(words, " ")| - 1)
                         ==> !(Join(words, " ")[k] == ' ' && Join(words, " ")[k + 1] == ' ')
    decreases |words|
  {
    if |words| > 1 {
      var w := words[0];
      var tail := Join(words[1..], " ");
      JoinedWordsShape(words[1..]);
      var r := w + " " + tail;
      assert Join(words, " ") == r;
      assert |tail| > 0;
      forall k | 0 <= k < |r| && IsWhitespace(r[k]) ensures r[k] == ' ' {
        if k > |w| { assert r[k] == tail[k - |w| - 1]; }
      }
      forall k | 0 <= k < |r| - 1 ensures !(r[k] == ' ' && r[k + 1] == ' ') {
        if k < |w| - 1 {
          assert r[k] == w[k];
        } else if k == |w| - 1 {
          assert r[k] == w[k];
        } else if k == |w| {
          assert r[k + 1] == tail[0];
        } else {
          assert r[k] == tail[k - |w| - 1] && r[k + 1] == tail[k - |w|];
        }
      }
      assert r[|r| - 1] == tail[|tail| - 1];
    }
  }

  /** The non-whitespace characters of `s`, in order. */
  function NonWhitespace(s: string): (kept: string)
  {
    if s == [] then []
    else (if IsWhitespace(s[0]) then [] else [s[0]]) + NonWhitespace(s[1..])
  }

  lemma {:induction false} NonWhitespaceAppend(a: string, b: string)
    ensures NonWhitespace(a + b) == NonWhitespace(a) + NonWhitespace(b)
    decreases |a|
  {
    if a == [] {
      assert a + b == b;
    } else {
      assert (a + b)[1..] == a[1..] + b;
      NonWhitespaceAppend(a[1..], b);
    }
  }

  lemma {:induction false} NonWhitespaceOfWord(w: string)
    requires forall k :: 0 <= k < |w| ==> !IsWhitespace(w[k])
    ensures NonWhitespace(w) == w
    decreases |w|
  {
    if w != [] {
      NonWhitespaceOfWord(w[1..]);
    }
  }

  /** Concatenating the words that `split()` finds gives back every
      non-whitespace character of `s`, in order: nothing is lost or reordered. */
  lemma {:induction false} SplitKeepsCharacters(s: string)
    ensures Join(Split(s), "") == NonWhitespace(s)
    decreases |s|
  {
    if s != [] {
      if IsWhitespace(s[0]) {
        SplitKeepsCharacters(s[1..]);
      } else {
        var n := WordLength(s);
        var w := s[..n];
        var words := Split(s[n..]);
        SplitKeepsCharacters(s[n..]);
        assert s == w + s[n..];
        NonWhitespaceAppend(w, s[n..]);
        NonWhitespaceOfWord(w);
        assert Split(s) == [w] + words;
        if words == [] {
          assert Join([w], "") == w;
        } else {
          assert ([w] + words)[1..] == words;
        }
      }
    }
  }
}
