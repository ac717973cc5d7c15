/** Text utilities: a greedy fixed-width splitter for long messages and a
    whitespace normaliser for command text (app/utils/text_format.py). */
module TextFormat {

  // ---------------------------------------------------------------------
  // split_text
  // ---------------------------------------------------------------------

  /** The parts glued back together in order. */
  function Concat(parts: seq<string>): string
  {
    if parts == [] then [] else Concat(parts[..|parts| - 1]) + parts[|parts| - 1]
  }

  lemma {:induction false} ConcatFront(parts: seq<string>)
    requires parts != []
    ensures Concat(parts) == parts[0] + Concat(parts[1..])
  {
    if |parts| == 1 {
      assert parts[..0] == [];
      assert parts[1..] == [];
    } else {
      var init := parts[..|parts| - 1];
      var last := parts[|parts| - 1];
      var tail := parts[1..];
      ConcatFront(init);
      assert init[0] == parts[0];
      assert tail[..|tail| - 1] == init[1..];
      assert tail[|tail| - 1] == last;
      assert Concat(tail) == Concat(init[1..]) + last;
      assert Concat(parts) == (parts[0] + Concat(init[1..])) + last;
    }
  }

  lemma ConcatEmpty(parts: seq<string>)
    requires forall i :: 0 <= i < |parts| ==> parts[i] != []
    ensures Concat(parts) == [] <==> parts == []
  {
    if parts != [] {
      assert |Concat(parts)| >= |parts[|parts| - 1]| > 0;
    }
  }

  /** `parts` is a greedy fixed-width chunking of `text`: the parts rebuild
      the text, none is empty, none is longer than `n`, and every part but
      the last is exactly `n` long. */
  ghost predicate IsChunking(parts: seq<string>, text: string, n: int)
  {
    && Concat(parts) == text
    && (forall i :: 0 <= i < |parts| ==> 0 < |parts[i]| <= n)
    && (forall i :: 0 <= i < |parts| - 1 ==> |parts[i]| == n)
  }

  lemma ChunkingOfLongText(p: seq<string>, text: string, n: int)
    requires IsChunking(p, text, n)
    ensures |p| > 1 ==> |text| > n
  {
    if |p| > 1 {
      ConcatFront(p);
      ConcatFront(p[1..]);
      assert p[1..][0] == p[1];
    }
  }

  /** There is only one chunking of a text for a width: the contract of
      SplitText determines its result. */
  lemma {:induction false} ChunkingIsUnique(p: seq<string>, q: seq<string>, text: string, n: int)
    requires IsChunking(p, text, n) && IsChunking(q, text, n)
    ensures p == q
    decreases |text|
  {
    ConcatEmpty(p);
    ConcatEmpty(q);
    if p != [] && q != [] {
      ConcatFront(p);
      ConcatFront(q);
      if |text| <= n {
        ChunkingOfLongText(p, text, n);
        ChunkingOfLongText(q, text, n);
        assert p == [p[0]] && q == [q[0]];
      } else {
        assert p[0] == text[..n] == q[0];
        var rest := text[n..];
        assert IsChunking(p[1..], rest, n) by {
          forall i | 0 <= i < |p[1..]| - 1 ensures |p[1..][i]| == n { assert p[1..][i] == p[i + 1]; }
        }
        assert IsChunking(q[1..], rest, n) by {
          forall i | 0 <= i < |q[1..]| - 1 ensures |q[1..][i]| == n { assert q[1..][i] == q[i + 1]; }
        }
        ChunkingIsUnique(p[1..], q[1..], rest, n);
        assert p == [p[0]] + p[1..] && q == [q[0]] + q[1..];
      }
    }
  }

  /** split_text: peel `maxLength`-long prefixes off the text while it is
      longer than `maxLength`, then keep the remainder if it is not empty.
      For `maxLength <= 0` the source loop never ends unless the text is
      empty and `maxLength` is 0, so only those calls are admitted. */
  method SplitText(text: string, maxLength: int) returns (parts: seq<string>)
    requires maxLength > 0 || (maxLength == 0 && text == [])
    ensures IsChunking(parts, text, maxLength)
    ensures parts == [] <==> text == []
    ensures 0 < |text| <= maxLength ==> parts == [text]
  {
    parts := [];
    var rest := text;
    while |rest| > maxLength
      invariant Concat(parts) + rest == text
      invariant forall i :: 0 <= i < |parts| ==> |parts[i]| == maxLength
      invariant maxLength > 0 || (rest == [] && parts == [])
      invariant |text| <= maxLength ==> parts == [] && rest == text
      decreases |rest|
    {
      var part := rest[..maxLength];
      assert Concat(parts + [part]) == Concat(parts) + part by {
        assert (parts + [part])[..|parts|] == parts;
      }
      parts := parts + [part];
      rest := rest[maxLength..];
    }
    if rest != [] {
      assert Concat(parts + [rest]) == Concat(parts) + rest by {
        assert (parts + [rest])[..|parts|] == parts;
      }
      parts := parts + [rest];
    } else {
      assert Concat(parts) == text;
    }
    ConcatEmpty(parts);
  }

  // ---------------------------------------------------------------------
  // normalize_whitespace
  // ---------------------------------------------------------------------

  /** Python's str.isspace(), which is also what `\s` matches in a str
      pattern and what str.strip() removes: the C0 separators TAB..CR and
      FS..US, SPACE, NEL, NO-BREAK SPACE, OGHAM SPACE MARK, EN QUAD..HAIR
      SPACE, LINE and PARAGRAPH SEPARATOR, NARROW NO-BREAK SPACE, MEDIUM
      MATHEMATICAL SPACE and IDEOGRAPHIC SPACE. */
  predicate IsSpace(c: char)
  {
    var n := c as int;
    || 0x09 <= n <= 0x0D
    || 0x1C <= n <= 0x20
    || n == 0x85 || n == 0xA0 || n == 0x1680
    || 0x2000 <= n <= 0x200A
    || n == 0x2028 || n == 0x2029 || n == 0x202F || n == 0x205F || n == 0x3000
  }

  predicate NoSpace(s: string)
  {
    forall i :: 0 <= i < |s| ==> !IsSpace(s[i])
  }

  /** A word: a non-empty run of non-whitespace characters. */
  predicate IsWord(w: string)
  {
    w != [] && NoSpace(w)
  }

  /** Length of the longest prefix of `s` without whitespace. */
  function SpanNonSpace(s: string): (k: nat)
    ensures k <= |s|
    ensures NoSpace(s[..k])
    ensures k < |s| ==> IsSpace(s[k])
  {
    if s == [] || IsSpace(s[0]) then 0
    else
      var k := 1 + SpanNonSpace(s[1..]);
      assert forall i :: 1 <= i < k ==> s[..k][i] == s[1..][..k - 1][i - 1];
      k
  }

  /** Length of the longest prefix of `s` made of whitespace. */
  function SpanSpace(s: string): (k: nat)
    ensures k <= |s|
    ensures forall i :: 0 <= i < k ==> IsSpace(s[i])
    ensures k < |s| ==> !IsSpace(s[k])
  {
    if s == [] || !IsSpace(s[0]) then 0
    else 1 + SpanSpace(s[1..])
  }

  /** str.lstrip() and str.rstrip() without arguments. */
  function TrimLeft(s: string): string
  {
    if s != [] && IsSpace(s[0]) then TrimLeft(s[1..]) else s
  }

  function TrimRight(s: string): string
  {
    if s != [] && IsSpace(s[|s| - 1]) then TrimRight(s[..|s| - 1]) else s
  }

  /** str.strip() without arguments. */
  function Strip(s: string): string
  {
    TrimRight(TrimLeft(s))
  }

  /** re.split(r'\s+', s): the pieces between maximal whitespace runs,
      with an empty first (last) piece when `s` starts (ends) with
      whitespace. */
  function SplitOnSpaceRuns(s: string): seq<string>
    decreases |s|
  {
    var k := SpanNonSpace(s);
    if k == |s| then [s]
    else
      var j := k + SpanSpace(s[k..]);
      [s[..k]] + SplitOnSpaceRuns(s[j..])
  }

  /** sep.join(parts). */
  function Join(sep: string, parts: seq<string>): string
  {
    if parts == [] then []
    else if |parts| == 1 then parts[0]
    else parts[0] + sep + Join(sep, parts[1..])
  }

  /** normalize_whitespace: ' '.join(re.split(r'\s+', text.strip())). */
  function NormalizeWhitespace(text: string): string
  {
    Join(" ", SplitOnSpaceRuns(Strip(text)))
  }

  /** Reference definition: the maximal non-whitespace runs of `s`, read
      from left to right. */
  function Words(s: string): seq<string>
    decreases |s|
  {
    if s == [] then []
    else if IsSpace(s[0]) then Words(s[1..])
    else
      var k := SpanNonSpace(s);
      [s[..k]] + Words(s[k..])
  }

  lemma {:induction false} WordsAreWords(s: string)
    ensures forall i :: 0 <= i < |Words(s)| ==> IsWord(Words(s)[i])
    decreases |s|
  {
    if s != [] {
      if IsSpace(s[0]) {
        WordsAreWords(s[1..]);
      } else {
        WordsAreWords(s[SpanNonSpace(s)..]);
      }
    }
  }

  /** Leading whitespace does not change the words. */
  lemma {:induction false} WordsSkipSpaces(s: string, m: nat)
    requires m <= |s|
    requires forall i :: 0 <= i < m ==> IsSpace(s[i])
    ensures Words(s) == Words(s[m..])
    decreases m
  {
    if m > 0 {
      WordsSkipSpaces(s[1..], m - 1);
      assert s[1..][m - 1..] == s[m..];
    }
  }

  /** A trailing whitespace character does not change the words. */
  lemma {:induction false} WordsDropTrailingSpace(s: string)
    requires s != [] && IsSpace(s[|s| - 1])
    ensures Words(s) == Words(s[..|s| - 1])
    decreases |s|
  {
    var s' := s[..|s| - 1];
    if |s| == 1 {
      assert Words(s[1..]) == [];
    } else if IsSpace(s[0]) {
      WordsDropTrailingSpace(s[1..]);
      assert s[1..][..|s| - 2] == s'[1..];
    } else {
      var k := SpanNonSpace(s);
      assert k < |s|;
      SpanPrefix(s, s', k);
      assert s'[..k] == s[..k];
      if k == |s| - 1 {
        assert Words(s[k..]) == [] by { assert IsSpace(s[k..][0]); assert s[k..][1..] == []; }
        assert s'[k..] == [];
      } else {
        WordsDropTrailingSpace(s[k..]);
        assert s[k..][..|s[k..]| - 1] == s'[k..];
      }
    }
  }

  /** The span of non-whitespace is the same in a prefix that still reaches
      the first whitespace character. */
  lemma {:induction false} SpanPrefix(s: string, p: string, k: nat)
    requires k == SpanNonSpace(s) && k < |s|
    requires k <= |p| <= |s| && p == s[..|p|]
    ensures SpanNonSpace(p) == k
    decreases k
  {
    if k > 0 {
      assert p[1..] == s[1..][..|p| - 1];
      SpanPrefix(s[1..], p[1..], k - 1);
    } else if p != [] {
      assert p[0] == s[0];
    }
  }

  lemma {:induction false} WordsTrimLeft(s: string)
    ensures Words(TrimLeft(s)) == Words(s)
    decreases |s|
  {
    if s != [] && IsSpace(s[0]) {
      WordsTrimLeft(s[1..]);
    }
  }

  lemma {:induction false} WordsTrimRight(s: string)
    ensures Words(TrimRight(s)) == Words(s)
    decreases |s|
  {
    if s != [] && IsSpace(s[|s| - 1]) {
      WordsDropTrailingSpace(s);
      WordsTrimRight(s[..|s| - 1]);
    }
  }

  lemma {:induction false} TrimLeftShape(s: string)
    ensures TrimLeft(s) == [] || !IsSpace(TrimLeft(s)[0])
    ensures |TrimLeft(s)| <= |s| && TrimLeft(s) == s[|s| - |TrimLeft(s)|..]
    decreases |s|
  {
    if s != [] && IsSpace(s[0]) { TrimLeftShape(s[1..]); }
  }

  lemma {:induction false} TrimRightShape(s: string)
    ensures TrimRight(s) == [] || !IsSpace(TrimRight(s)[|TrimRight(s)| - 1])
    ensures |TrimRight(s)| <= |s| && TrimRight(s) == s[..|TrimRight(s)|]
    ensures s != [] && !IsSpace(s[0]) ==> TrimRight(s) != [] && TrimRight(s)[0] == s[0]
    decreases |s|
  {
    if s != [] && IsSpace(s[|s| - 1]) {
      TrimRightShape(s[..|s| - 1]);
    }
  }

  /** str.strip() leaves no whitespace at either end. */
  lemma StripShape(s: string)
    ensures var t := Strip(s); t == [] || (!IsSpace(t[0]) && !IsSpace(t[|t| - 1]))
  {
    TrimLeftShape(s);
    TrimRightShape(TrimLeft(s));
  }

  /** One step of Words on text starting with a word. */
  lemma WordsHead(s: string)
    requires s != [] && !IsSpace(s[0])
    ensures 0 < SpanNonSpace(s)
    ensures Words(s) == [s[..SpanNonSpace(s)]] + Words(s[SpanNonSpace(s)..])
  {
  }

  /** One step of the regex split on text whose first word is followed by
      whitespace. */
  lemma SplitHead(s: string, k: nat, j: nat)
    requires k == SpanNonSpace(s) && k < |s|
    requires j == k + SpanSpace(s[k..])
    ensures SplitOnSpaceRuns(s) == [s[..k]] + SplitOnSpaceRuns(s[j..])
  {
  }

  /** A whitespace run stops before a last character that is not whitespace. */
  lemma {:induction false} SpanSpaceStops(t: string)
    requires t != [] && !IsSpace(t[|t| - 1])
    ensures SpanSpace(t) < |t|
    decreases |t|
  {
    if |t| > 1 && IsSpace(t[0]) {
      assert t[1..][|t| - 2] == t[|t| - 1];
      SpanSpaceStops(t[1..]);
    }
  }

  /** On text without whitespace at either end, re.split(r'\s+', ...) yields
      exactly the words. */
  lemma {:induction false} SplitIsWords(s: string)
    requires s != [] && !IsSpace(s[0]) && !IsSpace(s[|s| - 1])
    ensures SplitOnSpaceRuns(s) == Words(s)
    decreases |s|
  {
    var k := SpanNonSpace(s);
    WordsHead(s);
    if k < |s| {
      var t := s[k..];
      var sp := SpanSpace(t);
      SplitHead(s, k, k + sp);
      assert t[|t| - 1] == s[|s| - 1];
      SpanSpaceStops(t);
      var rest := t[sp..];
      assert rest == s[k + sp..];
      assert rest[|rest| - 1] == t[|t| - 1];
      SplitIsWords(rest);
      WordsSkipSpaces(t, sp);
    } else {
      assert SplitOnSpaceRuns(s) == [s];
      assert s[..k] == s;
      assert s[k..] == [];
    }
  }

  /** normalize_whitespace is the words of the text joined by single spaces. */
  lemma NormalizeIsJoinedWords(text: string)
    ensures NormalizeWhitespace(text) == Join(" ", Words(text))
  {
    var t := Strip(text);
    StripShape(text);
    WordsTrimLeft(text);
    WordsTrimRight(TrimLeft(text));
    assert Words(t) == Words(text);
    if t != [] {
      SplitIsWords(t);
    } else {
      assert SplitOnSpaceRuns(t) == [[]];
    }
  }

  lemma {:induction false} SpanOfWord(w: string, rest: string)
    requires IsWord(w)
    requires rest == [] || IsSpace(rest[0])
    ensures SpanNonSpace(w + rest) == |w|
    decreases |w|
  {
    if |w| > 1 {
      assert w[1..] + rest == (w + rest)[1..];
      SpanOfWord(w[1..], rest);
    } else {
      assert (w + rest)[1..] == rest;
    }
  }

  /** Joining words with single spaces and re-reading the words is the
      identity. */
  lemma {:induction false} WordsOfJoin(ws: seq<string>)
    requires forall i :: 0 <= i < |ws| ==> IsWord(ws[i])
    ensures Words(Join(" ", ws)) == ws
    decreases |ws|
  {
    if |ws| == 1 {
      var w := ws[0];
      SpanOfWord(w, []);
      assert w + [] == w;
      assert w[..|w|] == w && w[|w|..] == [];
    } else if |ws| > 1 {
      var w := ws[0];
      var tail := Join(" ", ws[1..]);
      var j := w + " " + tail;
      assert j == w + (" " + tail);
      SpanOfWord(w, " " + tail);
      WordsOfJoin(ws[1..]);
      assert j[..|w|] == w;
      assert j[|w|..] == " " + tail;
      assert (" " + tail)[1..] == tail;
      assert ws == [w] + ws[1..];
    }
  }

  /** The shape of words joined with single spaces: non-empty exactly when
      there is a word, no whitespace at either end, and every whitespace
      character is a single ' ' between two non-whitespace characters. */
  ghost predicate SingleSpaced(r: string)
  {
    && (r == [] || (!IsSpace(r[0]) && !IsSpace(r[|r| - 1])))
    && forall i :: 0 <= i < |r| && IsSpace(r[i]) ==>
         r[i] == ' ' && 0 < i < |r| - 1 && !IsSpace(r[i - 1]) && !IsSpace(r[i + 1])
  }

  lemma {:induction false} JoinSingleSpaced(ws: seq<string>)
    requires forall i :: 0 <= i < |ws| ==> IsWord(ws[i])
    ensures SingleSpaced(Join(" ", ws))
    ensures Join(" ", ws) == [] <==> ws == []
    decreases |ws|
  {
    if |ws| > 1 {
      var w := ws[0];
      var tail := Join(" ", ws[1..]);
      JoinSingleSpaced(ws[1..]);
      var r := w + " " + tail;
      forall i | 0 <= i < |r| && IsSpace(r[i])
        ensures r[i] == ' ' && 0 < i < |r| - 1 && !IsSpace(r[i - 1]) && !IsSpace(r[i + 1])
      {
        if i < |w| {
          assert false;
        } else if i == |w| {
          assert r[i - 1] == w[|w| - 1];
          assert r[i + 1] == tail[0];
        } else {
          var k := i - |w| - 1;
          assert r[i] == tail[k];
          if k == 0 {
            assert false;
          }
          assert r[i - 1] == tail[k - 1];
          assert r[i + 1] == tail[k + 1];
        }
      }
      assert r[0] == w[0];
      assert r[|r| - 1] == tail[|tail| - 1];
    }
  }

  /** normalize_whitespace leaves no whitespace at the ends and only single
      ' ' characters between words, keeps the sequence of words, and yields
      "" exactly when the text is empty or all whitespace. */
  lemma NormalizeWhitespaceSpec(text: string)
    ensures SingleSpaced(NormalizeWhitespace(text))
    ensures Words(NormalizeWhitespace(text)) == Words(text)
    ensures NormalizeWhitespace(text) == [] <==> Words(text) == []
  {
    NormalizeIsJoinedWords(text);
    WordsAreWords(text);
    JoinSingleSpaced(Words(text));
    WordsOfJoin(Words(text));
  }

  lemma NoWordsInSpaces(text: string)
    requires forall i :: 0 <= i < |text| ==> IsSpace(text[i])
    ensures Words(text) == []
  {
    WordsSkipSpaces(text, |text|);
    assert text[|text|..] == [];
  }

  /** Empty and whitespace-only text normalises to "". */
  lemma NormalizeBlank(text: string)
    requires forall i :: 0 <= i < |text| ==> IsSpace(text[i])
    ensures NormalizeWhitespace(text) == []
  {
    NoWordsInSpaces(text);
    NormalizeWhitespaceSpec(text);
  }

  /** Normalising twice is normalising once. */
  lemma NormalizeIdempotent(text: string)
    ensures NormalizeWhitespace(NormalizeWhitespace(text)) == NormalizeWhitespace(text)
  {
    var once := NormalizeWhitespace(text);
    NormalizeWhitespaceSpec(text);
    NormalizeIsJoinedWords(once);
    NormalizeIsJoinedWords(text);
  }
}
