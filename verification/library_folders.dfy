/** The library locator: extracts the library root directories from the text
    of Steam's `libraryfolders.vdf` manifest.

    The source does this with one `re.findall` over the pattern
        "\d+"\s*{\s*"path"\s*"([^"]+)"
    and returns the captured group of every match. At a fixed position that
    pattern can match in at most one way (every repeated class is followed by
    a character outside it), so the regex engine is modelled as a
    deterministic scanner: `MatchAt` tries the pattern at one position and
    `ScanFrom` is `findall`'s left-to-right loop. The declarative reading of
    the pattern is `PatternAt`, and `LeftmostMatches` says what a `findall`
    result is without saying how it is computed; the lemmas below connect the
    two readings in both directions. */
module LibraryFolders {
  import opened Wrappers

  const Quote: char := '"'
  const PathKey: string := "\"path\""

  /** The character classes the pattern repeats: `\d`, `\s` and `[^"]`.
      `\d` and `\s` are restricted to ASCII: digits `0`-`9`, and space, tab,
      newline, carriage return, form feed and vertical tab. `[^"]` also
      matches line breaks. */
  datatype Class = Digit | Space | NonQuote

  predicate InClass(c: char, cls: Class)
  {
    match cls
    case Digit => '0' <= c <= '9'
    case Space => c == ' ' || c == '\t' || c == '\n' || c == '\r' || c == '\U{C}' || c == '\U{B}'
    case NonQuote => c != Quote
  }

  /** Every character of `t` is in the class `cls`. */
  predicate All(t: string, cls: Class)
  {
    forall k {:trigger InClass(t[k], cls)} :: 0 <= k < |t| ==> InClass(t[k], cls)
  }

  /** Every character of `s[a..b]` is in the class `cls`, stated on the
      positions of `s`. */
  predicate Run(s: string, a: nat, b: nat, cls: Class)
  {
    b <= |s| && forall k {:trigger InClass(s[k], cls)} :: a <= k < b ==> InClass(s[k], cls)
  }

  /** What the capture group `([^"]+)` can hold. */
  predicate ValidValue(v: string)
  {
    |v| > 0 && Quote !in v
  }

  /** One successful match: the pattern occupies `s[start..end]` and its
      group captured `value`. */
  datatype Match = Match(start: nat, value: string, end: nat)

  /** The longest run of class `p` starting at `i`: a greedy `p*`. */
  function SkipWhile(s: string, i: nat, cls: Class): (j: nat)
    requires i <= |s|
    ensures i <= j <= |s|
    ensures Run(s, i, j, cls)
    ensures j == |s| || !InClass(s[j], cls)
    decreases |s| - i
  {
    if i == |s| || !InClass(s[i], cls) then i else SkipWhile(s, i + 1, cls)
  }

  /** `All` over a slice, stated on the positions of the whole string. */
  lemma AllSlice(s: string, i: nat, j: nat, t: string, cls: Class)
    requires i <= j <= |s| && s[i..j] == t
    ensures All(t, cls) <==> Run(s, i, j, cls)
  {
    if All(t, cls) {
      forall k | i <= k < j
        ensures InClass(s[k], cls)
      {
        assert t[k - i] == s[k];
      }
    }
    if Run(s, i, j, cls) {
      forall k | 0 <= k < j - i
        ensures InClass(t[k], cls)
      {
        assert t[k] == s[i + k];
      }
    }
  }

  /** A run of class `p` that cannot be extended is the one `SkipWhile`
      finds. */
  lemma SkipWhileUnique(s: string, i: nat, j: nat, cls: Class)
    requires i <= j <= |s|
    requires Run(s, i, j, cls)
    requires j == |s| || !InClass(s[j], cls)
    ensures SkipWhile(s, i, cls) == j
  {
  }

  /** Tries the pattern at position `i`, as `re` does at one starting
      position. Each stage below consumes one piece of the pattern and hands
      the position where it stopped to the next. */
  function MatchAt(s: string, i: nat): (r: Option<Match>)
    requires i <= |s|
    ensures r.Some? ==> r.value.start == i < r.value.end <= |s| && ValidValue(r.value.value)
  {
    if i < |s| && s[i] == Quote then MatchKey(s, i, SkipWhile(s, i + 1, Digit)) else None
  }

  /** `"\d+"`: the digits of the key end at `p1`, where its closing quote
      must stand. */
  function MatchKey(s: string, i: nat, p1: nat): (r: Option<Match>)
    requires i < p1 <= |s|
    ensures r.Some? ==> r.value.start == i < r.value.end <= |s| && ValidValue(r.value.value)
  {
    if i + 1 < p1 < |s| && s[p1] == Quote then MatchBrace(s, i, SkipWhile(s, p1 + 1, Space)) else None
  }

  /** `\s*{`: the blanks after the key end at `p2`, where the brace must
      stand. */
  function MatchBrace(s: string, i: nat, p2: nat): (r: Option<Match>)
    requires i < p2 <= |s|
    ensures r.Some? ==> r.value.start == i < r.value.end <= |s| && ValidValue(r.value.value)
  {
    if p2 < |s| && s[p2] == '{' then MatchPathKey(s, i, SkipWhile(s, p2 + 1, Space)) else None
  }

  /** `\s*"path"`: the blanks after the brace end at `p3`, where `"path"`
      must stand. */
  function MatchPathKey(s: string, i: nat, p3: nat): (r: Option<Match>)
    requires i < p3 <= |s|
    ensures r.Some? ==> r.value.start == i < r.value.end <= |s| && ValidValue(r.value.value)
  {
    if PathKeyAt(s, p3) then MatchValue(s, i, SkipWhile(s, p3 + |PathKey|, Space)) else None
  }

  /** `\s*"([^"]+)"`: the blanks after `"path"` end at `p4`, where the
      value's opening quote must stand; the value runs to the next quote and
      must not be empty. */
  function MatchValue(s: string, i: nat, p4: nat): (r: Option<Match>)
    requires i < p4 <= |s|
    ensures r.Some? ==> r.value.start == i < r.value.end <= |s| && ValidValue(r.value.value)
  {
    if p4 < |s| && s[p4] == Quote then
      var p5 := SkipWhile(s, p4 + 1, NonQuote);
      if p4 + 1 < p5 < |s| then
        AllSlice(s, p4 + 1, p5, s[p4 + 1..p5], NonQuote);
        NoQuoteIff(s[p4 + 1..p5]);
        Some(Match(i, s[p4 + 1..p5], p5 + 1))
      else None
    else None
  }

  /** The literal text the pattern stands for once its repeated parts are
      fixed: `"key"`, blanks, `{`, blanks, then `Tail`. Written right-nested
      so that it can be taken apart piece by piece. */
  function Shape(key: string, w1: string, w2: string, w3: string, value: string): (t: string)
    ensures |t| == 5 + |key| + |w1| + |w2| + |PathKey| + |w3| + |value|
  {
    Head(key, w1, w2, Tail(w3, value))
  }

  /** `"key"`, blanks, `{`, blanks, followed by `rest`. */
  function Head(key: string, w1: string, w2: string, rest: string): (t: string)
    ensures |t| == 3 + |key| + |w1| + |w2| + |rest|
  {
    [Quote] + (key + ([Quote] + (w1 + (['{'] + (w2 + rest)))))
  }

  /** The rest of the pattern: `"path"`, blanks, `"value"`. */
  function Tail(w3: string, value: string): (t: string)
    ensures |t| == 2 + |PathKey| + |w3| + |value|
  {
    PathKey + (w3 + ([Quote] + (value + [Quote])))
  }

  /** The pattern, read declaratively: `s[i..end]` is `"<digits>"`, optional
      whitespace, `{`, optional whitespace, `"path"`, optional whitespace, and
      `"value"`, where `value` is non-empty and free of quotes. */
  ghost predicate PatternAt(s: string, i: nat, value: string, end: nat)
  {
    && i <= end <= |s|
    && ValidValue(value)
    && exists key, w1, w2, w3 ::
         && |key| > 0 && All(key, Digit)
         && All(w1, Space) && All(w2, Space) && All(w3, Space)
         && s[i..end] == Shape(key, w1, w2, w3, value)
  }

  /** Where each piece of `Shape(key, w1, w2, w3, value)` sits when the shape
      starts at `s[i]`. */
  ghost predicate LayoutAt(s: string, i: nat, key: string, w1: string, w2: string, w3: string, value: string)
  {
    && HeadAt(s, i, key, w1, w2)
    && TailAt(s, i + 1 + |key| + 1 + |w1| + 1 + |w2|, w3, value)
  }

  /** Where each piece of `Head(key, w1, w2, _)` sits when it starts at
      `s[i]`. */
  ghost predicate HeadAt(s: string, i: nat, key: string, w1: string, w2: string)
  {
    var o1 := i + 1 + |key|;
    var o2 := o1 + 1 + |w1|;
    var o3 := o2 + 1 + |w2|;
    && o3 <= |s|
    && s[i] == Quote && s[i + 1..o1] == key && s[o1] == Quote
    && s[o1 + 1..o2] == w1 && s[o2] == '{' && s[o2 + 1..o3] == w2
  }

  /** Where each piece of `Tail(w3, value)` sits when it starts at `s[a]`. */
  ghost predicate TailAt(s: string, a: nat, w3: string, value: string)
  {
    var o4 := a + |PathKey| + |w3|;
    var o5 := o4 + 1 + |value|;
    && o5 < |s|
    && s[a..a + |PathKey|] == PathKey && s[a + |PathKey|..o4] == w3
    && s[o4] == Quote && s[o4 + 1..o5] == value && s[o5] == Quote
  }

  /** `[^"]+` accepts exactly the quote-free strings. */
  lemma NoQuoteIff(t: string)
    ensures All(t, NonQuote) <==> Quote !in t
  {
    if Quote in t {
      var k :| 0 <= k < |t| && t[k] == Quote;
      assert !InClass(t[k], NonQuote);
    }
    if Quote !in t {
      forall k | 0 <= k < |t|
        ensures InClass(t[k], NonQuote)
      {
        assert t[k] in t;
      }
    }
  }

  /** A slice equals `x + y` exactly when its first `|x|` characters are `x`
      and the rest is `y`. */
  lemma Peel(s: string, a: nat, c: nat, x: string, y: string)
    requires a + |x| <= c <= |s|
    ensures s[a..c] == x + y <==> s[a..a + |x|] == x && s[a + |x|..c] == y
  {
    assert s[a..c] == s[a..a + |x|] + s[a + |x|..c];
    if s[a..c] == x + y {
      assert s[a..a + |x|] == (x + y)[..|x|];
      assert s[a + |x|..c] == (x + y)[|x|..];
    }
  }

  /** `Peel` for a single leading character. */
  lemma PeelChar(s: string, a: nat, c: nat, ch: char, y: string)
    requires a < c <= |s|
    ensures s[a..c] == [ch] + y <==> s[a] == ch && s[a + 1..c] == y
  {
    Peel(s, a, c, [ch], y);
    assert s[a..a + 1] == [ch] <==> s[a] == ch;
  }

  /** `Peel` for a character followed by a string. */
  lemma CharThen(s: string, a: nat, c: nat, ch: char, t: string, y: string)
    requires a + 1 + |t| <= c <= |s|
    ensures s[a..c] == [ch] + (t + y)
            <==> s[a] == ch && s[a + 1..a + 1 + |t|] == t && s[a + 1 + |t|..c] == y
  {
    PeelChar(s, a, c, ch, t + y);
    Peel(s, a + 1, c, t, y);
  }

  lemma TailIffLayout(s: string, a: nat, e: nat, w3: string, value: string)
    requires e == a + |Tail(w3, value)| <= |s|
    ensures s[a..e] == Tail(w3, value) <==> TailAt(s, a, w3, value)
  {
    var o4 := a + |PathKey| + |w3|;
    Peel(s, a, e, PathKey, w3 + ([Quote] + (value + [Quote])));
    Peel(s, a + |PathKey|, e, w3, [Quote] + (value + [Quote]));
    CharThen(s, o4, e, Quote, value, [Quote]);
    PeelChar(s, e - 1, e, Quote, []);
  }

  lemma HeadIffLayout(s: string, i: nat, e: nat, key: string, w1: string, w2: string, rest: string)
    requires e == i + |Head(key, w1, w2, rest)| <= |s|
    ensures s[i..e] == Head(key, w1, w2, rest)
            <==> HeadAt(s, i, key, w1, w2) && s[e - |rest|..e] == rest
  {
    var o1 := i + 1 + |key|;
    var o2 := o1 + 1 + |w1|;
    CharThen(s, i, e, Quote, key, [Quote] + (w1 + (['{'] + (w2 + rest))));
    CharThen(s, o1, e, Quote, w1, ['{'] + (w2 + rest));
    CharThen(s, o2, e, '{', w2, rest);
  }

  /** The slice view and the position view of the pattern agree. */
  lemma ShapeIffLayout(s: string, i: nat, key: string, w1: string, w2: string, w3: string, value: string)
    requires i + |Shape(key, w1, w2, w3, value)| <= |s|
    ensures s[i..i + |Shape(key, w1, w2, w3, value)|] == Shape(key, w1, w2, w3, value)
            <==> LayoutAt(s, i, key, w1, w2, w3, value)
  {
    HeadIffLayout(s, i, i + |Shape(key, w1, w2, w3, value)|, key, w1, w2, Tail(w3, value));
    var o3 := i + 1 + |key| + 1 + |w1| + 1 + |w2|;
    TailIffLayout(s, o3, o3 + |Tail(w3, value)|, w3, value);
  }

  /** The pattern occurs at `i` with its landmarks at the given positions:
      the key's closing quote at `p1`, the brace at `p2`, `"path"` from `p3`,
      and the quotes around the value at `p4` and `p5`. */
  ghost predicate Landmarks(s: string, i: nat, p1: nat, p2: nat, p3: nat, p4: nat, p5: nat)
  {
    HeadLandmarks(s, i, p1, p2, p3) && TailLandmarks(s, p3, p4, p5)
  }

  /** `"<digits>"`, blanks, `{`, blanks, on positions `i` to `p3`. */
  ghost predicate HeadLandmarks(s: string, i: nat, p1: nat, p2: nat, p3: nat)
  {
    && i + 1 < p1 < p2 < p3 <= |s|
    && s[i] == Quote && Run(s, i + 1, p1, Digit) && s[p1] == Quote
    && Run(s, p1 + 1, p2, Space) && s[p2] == '{' && Run(s, p2 + 1, p3, Space)
  }

  /** `"path"`, blanks, `"<value>"`, on positions `p3` to `p5`. */
  ghost predicate TailLandmarks(s: string, p3: nat, p4: nat, p5: nat)
  {
    && p3 + |PathKey| <= p4 && p4 + 1 < p5 < |s|
    && PathKeyAt(s, p3) && Run(s, p3 + |PathKey|, p4, Space)
    && s[p4] == Quote && Run(s, p4 + 1, p5, NonQuote) && s[p5] == Quote
  }

  /** The text `"path"` occurs at position `a`. */
  predicate PathKeyAt(text: string, a: nat)
  {
    a + |PathKey| <= |text| && text[a..a + |PathKey|] == PathKey
  }

  lemma HeadToLandmarks(s: string, i: nat, key: string, w1: string, w2: string, p1: nat, p2: nat, p3: nat)
    requires HeadAt(s, i, key, w1, w2)
    requires |key| > 0 && All(key, Digit) && All(w1, Space) && All(w2, Space)
    requires p1 == i + 1 + |key| && p2 == p1 + 1 + |w1| && p3 == p2 + 1 + |w2|
    ensures HeadLandmarks(s, i, p1, p2, p3)
  {
    AllSlice(s, i + 1, p1, key, Digit);
    AllSlice(s, p1 + 1, p2, w1, Space);
    AllSlice(s, p2 + 1, p3, w2, Space);
  }

  lemma TailToLandmarks(s: string, p3: nat, w3: string, value: string, p4: nat, p5: nat)
    requires TailAt(s, p3, w3, value) && All(w3, Space) && ValidValue(value)
    requires p4 == p3 + |PathKey| + |w3| && p5 == p4 + 1 + |value|
    ensures TailLandmarks(s, p3, p4, p5)
    ensures value == s[p4 + 1..p5]
  {
    AllSlice(s, p3 + |PathKey|, p4, w3, Space);
    NoQuoteIff(value);
    AllSlice(s, p4 + 1, p5, value, NonQuote);
  }

  lemma LandmarksToHead(s: string, i: nat, p1: nat, p2: nat, p3: nat)
    requires HeadLandmarks(s, i, p1, p2, p3)
    ensures HeadAt(s, i, s[i + 1..p1], s[p1 + 1..p2], s[p2 + 1..p3])
    ensures All(s[i + 1..p1], Digit) && All(s[p1 + 1..p2], Space) && All(s[p2 + 1..p3], Space)
  {
    AllSlice(s, i + 1, p1, s[i + 1..p1], Digit);
    AllSlice(s, p1 + 1, p2, s[p1 + 1..p2], Space);
    AllSlice(s, p2 + 1, p3, s[p2 + 1..p3], Space);
  }

  lemma LandmarksToTail(s: string, p3: nat, p4: nat, p5: nat)
    requires TailLandmarks(s, p3, p4, p5)
    ensures TailAt(s, p3, s[p3 + |PathKey|..p4], s[p4 + 1..p5])
    ensures All(s[p3 + |PathKey|..p4], Space) && ValidValue(s[p4 + 1..p5])
  {
    AllSlice(s, p3 + |PathKey|, p4, s[p3 + |PathKey|..p4], Space);
    AllSlice(s, p4 + 1, p5, s[p4 + 1..p5], NonQuote);
    NoQuoteIff(s[p4 + 1..p5]);
  }

  /** A reported match has its landmarks where the scanner stopped. */
  lemma MatchAtLandmarks(s: string, i: nat) returns (p1: nat, p2: nat, p3: nat, p4: nat, p5: nat)
    requires i <= |s|
    requires MatchAt(s, i).Some?
    ensures Landmarks(s, i, p1, p2, p3, p4, p5)
  {
    p1 := SkipWhile(s, i + 1, Digit);
    p2 := SkipWhile(s, p1 + 1, Space);
    p3 := SkipWhile(s, p2 + 1, Space);
    assert MatchPathKey(s, i, p3).Some?;
    p4, p5 := MatchPathKeyLandmarks(s, i, p3);
  }

  /** The second half of `MatchAtLandmarks`, from `"path"` on. */
  lemma MatchPathKeyLandmarks(s: string, i: nat, p3: nat) returns (p4: nat, p5: nat)
    requires i < p3 <= |s|
    requires MatchPathKey(s, i, p3).Some?
    ensures TailLandmarks(s, p3, p4, p5)
  {
    p4 := SkipWhile(s, p3 + |PathKey|, Space);
    p5 := SkipWhile(s, p4 + 1, NonQuote);
  }

  /** Landmarks fix what the scanner reports: each stage, given the
      position where the previous run stopped, hands on the same result. */
  lemma LandmarksMatchAt(s: string, i: nat, p1: nat, p2: nat, p3: nat, p4: nat, p5: nat)
    requires Landmarks(s, i, p1, p2, p3, p4, p5)
    ensures MatchAt(s, i) == Some(Match(i, s[p4 + 1..p5], p5 + 1))
  {
    var r := Some(Match(i, s[p4 + 1..p5], p5 + 1));
    ValueStage(s, i, p4, p5);
    PathKeyStage(s, i, p3, p4, r);
    assert s[p3] == Quote by {
      assert s[p3] == s[p3..p3 + |PathKey|][0];
    }
    BraceStage(s, i, p2, p3, r);
    KeyStage(s, i, p1, p2, r);
    AtStage(s, i, p1, r);
  }

  lemma ValueStage(s: string, i: nat, p4: nat, p5: nat)
    requires i < p4 && p4 + 1 < p5 < |s| && s[p4] == Quote && s[p5] == Quote
    requires Run(s, p4 + 1, p5, NonQuote)
    ensures MatchValue(s, i, p4) == Some(Match(i, s[p4 + 1..p5], p5 + 1))
  {
    SkipWhileUnique(s, p4 + 1, p5, NonQuote);
  }

  lemma PathKeyStage(s: string, i: nat, p3: nat, p4: nat, r: Option<Match>)
    requires i < p3 && p3 + |PathKey| <= p4 < |s| && PathKeyAt(s, p3) && s[p4] == Quote
    requires Run(s, p3 + |PathKey|, p4, Space) && MatchValue(s, i, p4) == r
    ensures MatchPathKey(s, i, p3) == r
  {
    SkipWhileUnique(s, p3 + |PathKey|, p4, Space);
  }

  lemma BraceStage(s: string, i: nat, p2: nat, p3: nat, r: Option<Match>)
    requires i < p2 < p3 < |s| && s[p2] == '{' && s[p3] == Quote
    requires Run(s, p2 + 1, p3, Space) && MatchPathKey(s, i, p3) == r
    ensures MatchBrace(s, i, p2) == r
  {
    SkipWhileUnique(s, p2 + 1, p3, Space);
  }

  lemma KeyStage(s: string, i: nat, p1: nat, p2: nat, r: Option<Match>)
    requires i + 1 < p1 < p2 < |s| && s[p1] == Quote && s[p2] == '{'
    requires Run(s, p1 + 1, p2, Space) && MatchBrace(s, i, p2) == r
    ensures MatchKey(s, i, p1) == r
  {
    SkipWhileUnique(s, p1 + 1, p2, Space);
  }

  lemma AtStage(s: string, i: nat, p1: nat, r: Option<Match>)
    requires i + 1 < p1 < |s| && s[i] == Quote && s[p1] == Quote
    requires Run(s, i + 1, p1, Digit) && MatchKey(s, i, p1) == r
    ensures MatchAt(s, i) == r
  {
    SkipWhileUnique(s, i + 1, p1, Digit);
  }

  /** Landmarks give the pattern's literal shape. */
  lemma LandmarksPattern(s: string, i: nat, p1: nat, p2: nat, p3: nat, p4: nat, p5: nat)
    requires Landmarks(s, i, p1, p2, p3, p4, p5)
    ensures PatternAt(s, i, s[p4 + 1..p5], p5 + 1)
  {
    var key, w1, w2, w3, value := s[i + 1..p1], s[p1 + 1..p2], s[p2 + 1..p3], s[p3 + |PathKey|..p4], s[p4 + 1..p5];
    LandmarksToHead(s, i, p1, p2, p3);
    LandmarksToTail(s, p3, p4, p5);
    ShapeIffLayout(s, i, key, w1, w2, w3, value);
    assert s[i..p5 + 1] == Shape(key, w1, w2, w3, value);
  }

  /** An occurrence of the pattern has landmarks. */
  lemma PatternLandmarks(s: string, i: nat, value: string, end: nat) returns (p1: nat, p2: nat, p3: nat, p4: nat, p5: nat)
    requires PatternAt(s, i, value, end)
    ensures Landmarks(s, i, p1, p2, p3, p4, p5)
    ensures value == s[p4 + 1..p5] && end == p5 + 1
  {
    var key, w1, w2, w3 :|
      && |key| > 0 && All(key, Digit)
      && All(w1, Space) && All(w2, Space) && All(w3, Space)
      && s[i..end] == Shape(key, w1, w2, w3, value);
    ShapeIffLayout(s, i, key, w1, w2, w3, value);
    p1 := i + 1 + |key|;
    p2 := p1 + 1 + |w1|;
    p3 := p2 + 1 + |w2|;
    p4 := p3 + |PathKey| + |w3|;
    p5 := p4 + 1 + |value|;
    HeadToLandmarks(s, i, key, w1, w2, p1, p2, p3);
    TailToLandmarks(s, p3, w3, value, p4, p5);
  }

  /** Soundness of the scanner: a match it reports is an occurrence of the
      pattern. */
  lemma MatchAtSound(s: string, i: nat)
    requires i <= |s|
    requires MatchAt(s, i).Some?
    ensures PatternAt(s, i, MatchAt(s, i).value.value, MatchAt(s, i).value.end)
  {
    var p1, p2, p3, p4, p5 := MatchAtLandmarks(s, i);
    LandmarksMatchAt(s, i, p1, p2, p3, p4, p5);
    LandmarksPattern(s, i, p1, p2, p3, p4, p5);
  }

  /** Completeness of the scanner: wherever the pattern occurs, the scanner
      reports exactly that occurrence. */
  lemma MatchAtComplete(s: string, i: nat, value: string, end: nat)
    requires PatternAt(s, i, value, end)
    ensures i < end
    ensures MatchAt(s, i) == Some(Match(i, value, end))
  {
    var p1, p2, p3, p4, p5 := PatternLandmarks(s, i, value, end);
    LandmarksMatchAt(s, i, p1, p2, p3, p4, p5);
    assert i < end;
    assert Match(i, value, end) == Match(i, s[p4 + 1..p5], p5 + 1);
  }

  /** `findall`'s loop from position `i`: take the match here and resume at
      its end, or move one character on. */
  function ScanFrom(s: string, i: nat): (ms: seq<Match>)
    requires i <= |s|
    ensures forall k :: 0 <= k < |ms| ==> i <= ms[k].start < ms[k].end <= |s|
    ensures forall j, k :: 0 <= j < k < |ms| ==> ms[j].end <= ms[k].start
    ensures forall k :: 0 <= k < |ms| ==> ValidValue(ms[k].value)
    decreases |s| - i
  {
    if i == |s| then []
    else
      match MatchAt(s, i)
      case Some(m) => [m] + ScanFrom(s, m.end)
      case None => ScanFrom(s, i + 1)
  }

  /** One `findall` step at a match: the match is reported and the scan
      resumes where it ended. */
  lemma ScanFromAtMatch(s: string, i: nat, m: Match)
    requires i < |s| && MatchAt(s, i) == Some(m)
    ensures ScanFrom(s, i) == [m] + ScanFrom(s, m.end)
  {
  }

  /** One `findall` step where the pattern does not occur: the scan moves
      on by one character. */
  lemma ScanFromNoMatch(s: string, i: nat)
    requires i < |s| && MatchAt(s, i).None?
    ensures ScanFrom(s, i) == ScanFrom(s, i + 1)
  {
  }

  lemma HeadTail<T>(xs: seq<T>)
    requires |xs| > 0
    ensures xs == [xs[0]] + xs[1..]
  {
  }

  /** A stretch of text without a double quote contributes no match: the
      pattern opens with a quote, so the scan steps over the stretch. */
  lemma {:induction false} ScanSkipsQuoteless(s: string, i: nat, j: nat)
    requires i <= j <= |s| && Quote !in s[i..j]
    ensures ScanFrom(s, i) == ScanFrom(s, j)
    decreases j - i
  {
    if i < j {
      assert s[i] == s[i..j][0];
      assert s[i + 1..j] == s[i..j][1..];
      ScanSkipsQuoteless(s, i + 1, j);
    }
  }

  /** Position `p` lies inside one of the matches `ms`. */
  ghost predicate Covered(ms: seq<Match>, p: nat)
  {
    exists k :: 0 <= k < |ms| && ms[k].start <= p < ms[k].end
  }

  /** What a `findall` result from position `i` is: occurrences of the
      pattern at or after `i`, in increasing non-overlapping order, that
      leave no occurrence of the pattern outside them. */
  ghost predicate LeftmostMatches(s: string, i: nat, ms: seq<Match>)
  {
    && (forall k :: 0 <= k < |ms| ==> i <= ms[k].start && PatternAt(s, ms[k].start, ms[k].value, ms[k].end))
    && (forall j, k :: 0 <= j < k < |ms| ==> ms[j].end <= ms[k].start)
    && (forall p: nat, v, e :: i <= p && PatternAt(s, p, v, e) ==> Covered(ms, p))
  }

  /** Every match the scan reports is an occurrence of the pattern. */
  lemma {:induction false} ScanFromSound(s: string, i: nat)
    requires i <= |s|
    ensures forall k :: 0 <= k < |ScanFrom(s, i)| ==>
              PatternAt(s, ScanFrom(s, i)[k].start, ScanFrom(s, i)[k].value, ScanFrom(s, i)[k].end)
    decreases |s| - i
  {
    if i < |s| {
      match MatchAt(s, i)
      case Some(m) =>
        MatchAtSound(s, i);
        ScanFromSound(s, m.end);
        ScanFromAtMatch(s, i, m);
      case None =>
        ScanFromSound(s, i + 1);
        ScanFromNoMatch(s, i);
    }
  }

  /** Every occurrence of the pattern at or after `i` lies inside a reported
      match. */
  lemma ScanFromCovers(s: string, i: nat, p: nat, v: string, e: nat)
    requires i <= p && PatternAt(s, p, v, e)
    ensures i <= |s|
    ensures Covered(ScanFrom(s, i), p)
  {
    MatchAtComplete(s, p, v, e);
    ScanFromCoversMatch(s, i, p);
  }

  /** Every position at or after `i` where the scanner matches lies inside a
      reported match. */
  lemma {:induction false} ScanFromCoversMatch(s: string, i: nat, p: nat)
    requires i <= p <= |s| && MatchAt(s, p).Some?
    ensures Covered(ScanFrom(s, i), p)
    decreases |s| - i
  {
    if i == |s| {
      assert false;
    } else {
      match MatchAt(s, i)
      case Some(m) =>
        ScanFromAtMatch(s, i, m);
        if p < m.end {
          assert ([m] + ScanFrom(s, m.end))[0] == m;
        } else {
          ScanFromCoversMatch(s, m.end, p);
          CoveredPrepend(m, ScanFrom(s, m.end), p);
        }
      case None =>
        ScanFromCoversMatch(s, i + 1, p);
        ScanFromNoMatch(s, i);
    }
  }

  lemma CoveredPrepend(m: Match, ms: seq<Match>, p: nat)
    requires Covered(ms, p)
    ensures Covered([m] + ms, p)
  {
    var k :| 0 <= k < |ms| && ms[k].start <= p < ms[k].end;
    assert ([m] + ms)[k + 1] == ms[k];
  }

  /** Completeness for one occurrence: an occurrence that does not start
      inside a reported match is itself reported. */
  lemma ScanFromContributes(s: string, i: nat, p: nat, v: string, e: nat)
    requires i <= p && PatternAt(s, p, v, e)
    requires i <= |s|
    requires forall k :: 0 <= k < |ScanFrom(s, i)| ==> !(ScanFrom(s, i)[k].start < p < ScanFrom(s, i)[k].end)
    ensures Match(p, v, e) in ScanFrom(s, i)
  {
    var ms := ScanFrom(s, i);
    ScanFromCovers(s, i, p, v, e);
    ScanFromSound(s, i);
    var k :| 0 <= k < |ms| && ms[k].start <= p < ms[k].end;
    assert ms[k].start == p;
    MatchAtComplete(s, p, v, e);
    MatchAtComplete(s, p, ms[k].value, ms[k].end);
  }

  /** The scan is a `findall` result in the sense of `LeftmostMatches`. */
  lemma ScanFromIsLeftmost(s: string, i: nat)
    requires i <= |s|
    ensures LeftmostMatches(s, i, ScanFrom(s, i))
  {
    ScanFromSound(s, i);
    forall p: nat, v, e | i <= p && PatternAt(s, p, v, e)
      ensures Covered(ScanFrom(s, i), p)
    {
      ScanFromCovers(s, i, p, v, e);
    }
  }

  /** ... and it is the only one: any sequence of matches meeting
      `LeftmostMatches` is the scan. */
  lemma {:induction false} LeftmostMatchesUnique(s: string, i: nat, ms: seq<Match>)
    requires i <= |s|
    requires LeftmostMatches(s, i, ms)
    ensures ms == ScanFrom(s, i)
    decreases |s| - i
  {
    if i == |s| {
      LeftmostAtEnd(s, ms);
    } else {
      match MatchAt(s, i)
      case Some(m) =>
        LeftmostAtMatch(s, i, ms, m);
        LeftmostTail(s, i, ms);
        LeftmostMatchesUnique(s, m.end, ms[1..]);
        ScanFromAtMatch(s, i, m);
        HeadTail(ms);
      case None =>
        LeftmostAtNoMatch(s, i, ms);
        LeftmostMatchesUnique(s, i + 1, ms);
        ScanFromNoMatch(s, i);
    }
  }

  /** No match can start at the end of the text. */
  lemma LeftmostAtEnd(s: string, ms: seq<Match>)
    requires LeftmostMatches(s, |s|, ms)
    ensures ms == []
  {
    if |ms| > 0 {
      MatchAtComplete(s, ms[0].start, ms[0].value, ms[0].end);
    }
  }

  /** Where the pattern occurs at `i`, a `findall` result from `i` starts
      with that occurrence. */
  lemma LeftmostAtMatch(s: string, i: nat, ms: seq<Match>, m: Match)
    requires i <= |s| && LeftmostMatches(s, i, ms)
    requires MatchAt(s, i) == Some(m)
    ensures |ms| > 0 && ms[0] == m
  {
    MatchAtSound(s, i);
    assert Covered(ms, i);
    var k :| 0 <= k < |ms| && ms[k].start <= i < ms[k].end;
    MatchAtComplete(s, i, ms[k].value, ms[k].end);
    if k > 0 {
      MatchAtComplete(s, ms[0].start, ms[0].value, ms[0].end);
      assert false;
    }
  }

  /** After its first match, a `findall` result continues with a `findall`
      result from that match's end. */
  lemma LeftmostTail(s: string, i: nat, ms: seq<Match>)
    requires LeftmostMatches(s, i, ms) && |ms| > 0
    ensures LeftmostMatches(s, ms[0].end, ms[1..])
  {
    var rest := ms[1..];
    forall p: nat, v, e | ms[0].end <= p && PatternAt(s, p, v, e)
      ensures Covered(rest, p)
    {
      assert Covered(ms, p);
      var j :| 0 <= j < |ms| && ms[j].start <= p < ms[j].end;
      if j == 0 {
        assert false;
      }
      assert rest[j - 1] == ms[j];
    }
  }

  /** Where the pattern does not occur at `i`, a `findall` result from `i`
      is one from `i + 1`. */
  lemma LeftmostAtNoMatch(s: string, i: nat, ms: seq<Match>)
    requires i < |s| && LeftmostMatches(s, i, ms)
    requires MatchAt(s, i) == None
    ensures LeftmostMatches(s, i + 1, ms)
  {
    forall k | 0 <= k < |ms|
      ensures ms[k].start != i
    {
      if ms[k].start == i {
        MatchAtComplete(s, i, ms[k].value, ms[k].end);
        assert false;
      }
    }
  }

  /** The captured values of a list of matches, in order. */
  function Values(ms: seq<Match>): (vs: seq<string>)
    ensures |vs| == |ms|
    ensures forall k :: 0 <= k < |ms| ==> vs[k] == ms[k].value
  {
    seq(|ms|, k requires 0 <= k < |ms| => ms[k].value)
  }

  /** `parse_vdf_library_folders` once the file has been read: `None` stands
      for a missing or unreadable manifest, which degrades to no
      libraries. */
  function ParseLibraryFolders(manifest: Option<string>): (paths: seq<string>)
    ensures manifest.None? ==> paths == []
    ensures forall k :: 0 <= k < |paths| ==> ValidValue(paths[k])
  {
    match manifest
    case None => []
    case Some(text) => Values(ScanFrom(text, 0))
  }

  /** The library list is exactly the captured values of the `findall`
      result, element for element and verbatim. */
  lemma ParseLibraryFoldersIsFindAll(text: string, ms: seq<Match>)
    requires LeftmostMatches(text, 0, ms)
    ensures ParseLibraryFolders(Some(text)) == Values(ms)
  {
    LeftmostMatchesUnique(text, 0, ms);
  }

  /** Each library path is preceded in the manifest by a numeric key block
      opening `"<digits>" { "path" "` and is followed by a closing quote. */
  lemma ParseLibraryFoldersSound(text: string, k: nat)
    requires k < |ParseLibraryFolders(Some(text))|
    ensures exists m :: m in ScanFrom(text, 0) && m.value == ParseLibraryFolders(Some(text))[k]
                        && PatternAt(text, m.start, m.value, m.end)
  {
    ScanFromSound(text, 0);
    var m := ScanFrom(text, 0)[k];
    assert m in ScanFrom(text, 0);
  }

  /** A manifest in which `"path"` never occurs yields no libraries. */
  lemma NoPathKeyNoLibraries(text: string)
    requires forall a: nat :: !PathKeyAt(text, a)
    ensures ParseLibraryFolders(Some(text)) == []
  {
    var ms := ScanFrom(text, 0);
    if |ms| > 0 {
      ScanFromSound(text, 0);
      var m := ms[0];
      assert PatternAt(text, m.start, m.value, m.end);
      var key, w1, w2, w3 :|
        && |key| > 0 && All(key, Digit)
        && All(w1, Space) && All(w2, Space) && All(w3, Space)
        && text[m.start..m.end] == Shape(key, w1, w2, w3, m.value);
      ShapeIffLayout(text, m.start, key, w1, w2, w3, m.value);
      var o3 := m.start + 1 + |key| + 1 + |w1| + 1 + |w2|;
      assert PathKeyAt(text, o3);
      assert false;
    }
  }

  /** A manifest without any double quote yields no libraries. */
  lemma QuotelessNoLibraries(text: string)
    requires Quote !in text
    ensures ParseLibraryFolders(Some(text)) == []
  {
    assert text[0..|text|] == text;
    ScanSkipsQuoteless(text, 0, |text|);
  }

  /** One library entry as a manifest writes it: the numeric key, the
      whitespace the pattern allows at its three `\s*` places, the library
      path, and the text that follows up to the next entry. */
  datatype Entry = Entry(key: string, w1: string, w2: string, w3: string, path: string, gap: string)

  /** An entry the pattern recognises, followed by text without a double
      quote (closing braces, line breaks, indentation). */
  predicate WellFormedEntry(e: Entry)
  {
    && |e.key| > 0 && All(e.key, Digit)
    && All(e.w1, Space) && All(e.w2, Space) && All(e.w3, Space)
    && ValidValue(e.path) && Quote !in e.gap
  }

  function EntryText(e: Entry): string
  {
    Shape(e.key, e.w1, e.w2, e.w3, e.path) + e.gap
  }

  /** The manifest text made of `es` written one after the other. */
  function ManifestText(es: seq<Entry>): string
  {
    if |es| == 0 then "" else EntryText(es[0]) + ManifestText(es[1..])
  }

  function Paths(es: seq<Entry>): (ps: seq<string>)
    ensures |ps| == |es|
    ensures forall k :: 0 <= k < |es| ==> ps[k] == es[k].path
  {
    seq(|es|, k requires 0 <= k < |es| => es[k].path)
  }

  /** A well-formed entry matches where it starts and ends just after the
      closing quote of its path. */
  lemma EntryMatches(s: string, i: nat, e: Entry)
    requires WellFormedEntry(e)
    requires i + |Shape(e.key, e.w1, e.w2, e.w3, e.path)| <= |s|
    requires s[i..i + |Shape(e.key, e.w1, e.w2, e.w3, e.path)|] == Shape(e.key, e.w1, e.w2, e.w3, e.path)
    ensures MatchAt(s, i) == Some(Match(i, e.path, i + |Shape(e.key, e.w1, e.w2, e.w3, e.path)|))
  {
    MatchAtComplete(s, i, e.path, i + |Shape(e.key, e.w1, e.w2, e.w3, e.path)|);
  }

  /** Scanning a well-formed entry reports its path and resumes after the
      entry's trailing text. */
  lemma EntryStep(s: string, i: nat, e: Entry, j: nat)
    requires WellFormedEntry(e) && j == i + |EntryText(e)| <= |s|
    requires s[i..j] == EntryText(e)
    ensures i < j && ScanFrom(s, i) == [Match(i, e.path, j - |e.gap|)] + ScanFrom(s, j)
  {
    var b := Shape(e.key, e.w1, e.w2, e.w3, e.path);
    var m := i + |b|;
    assert s[i..m] == b by { Peel(s, i, j, b, e.gap); }
    assert s[m..j] == e.gap by { Peel(s, i, j, b, e.gap); }
    EntryMatches(s, i, e);
    ScanFromAtMatch(s, i, Match(i, e.path, m));
    ScanSkipsQuoteless(s, m, j);
  }

  lemma {:induction false} EntriesScan(s: string, i: nat, es: seq<Entry>)
    requires forall k :: 0 <= k < |es| ==> WellFormedEntry(es[k])
    requires i <= |s| && s[i..] == ManifestText(es)
    ensures Values(ScanFrom(s, i)) == Paths(es)
    decreases |es|
  {
    if |es| == 0 {
      assert i == |s|;
    } else {
      var j := i + |EntryText(es[0])|;
      assert s[i..j] == EntryText(es[0]) && s[j..] == ManifestText(es[1..]) by {
        assert s[i..] == EntryText(es[0]) + ManifestText(es[1..]);
        assert s[i..][..|EntryText(es[0])|] == s[i..j];
        assert s[i..][|EntryText(es[0])|..] == s[j..];
      }
      EntryStep(s, i, es[0], j);
      EntriesScan(s, j, es[1..]);
      ValuesPrepend(Match(i, es[0].path, j - |es[0].gap|), ScanFrom(s, j));
      PathsPrepend(es);
    }
  }

  lemma PathsPrepend(es: seq<Entry>)
    requires |es| > 0
    ensures Paths(es) == [es[0].path] + Paths(es[1..])
  {
  }

  lemma ValuesPrepend(m: Match, ms: seq<Match>)
    ensures Values([m] + ms) == [m.value] + Values(ms)
  {
  }

  /** A manifest made of well-formed entries yields their paths, all of
      them, in the order they are written. */
  lemma ManifestOfEntries(es: seq<Entry>)
    requires forall k :: 0 <= k < |es| ==> WellFormedEntry(es[k])
    ensures ParseLibraryFolders(Some(ManifestText(es))) == Paths(es)
  {
    var t := ManifestText(es);
    assert t[0..] == t;
    EntriesScan(t, 0, es);
    assert ParseLibraryFolders(Some(t)) == Values(ScanFrom(t, 0));
  }
}
