/**
 * `long_chunk`: split a text into chunks of at most `context_length` words.
 * Words are the maximal runs of word characters (the regular expression
 * `\w+`); which characters are word characters is the parameter `isWord`.
 */
module Chunking {
  import opened Wrappers
  import opened Strings

  /** The error `long_chunk` raises: `context_length == 0` divides by zero. */
  datatype ChunkError = ZeroDivision

  // ---------------------------------------------------------------------------
  // Tokenization (`re.findall(r'\w+', text)`)

  /** A token: a non-empty string of word characters. */
  predicate IsToken(w: string, isWord: char -> bool) {
    w != [] && forall j :: 0 <= j < |w| ==> isWord(w[j])
  }

  /** The length of the run of word characters that `s` starts with. */
  function RunLength(s: string, isWord: char -> bool): (k: nat)
    ensures k <= |s|
    ensures forall j :: 0 <= j < k ==> isWord(s[j])
    ensures k < |s| ==> !isWord(s[k])
    decreases |s|
  {
    if s == [] || !isWord(s[0]) then 0 else 1 + RunLength(s[1..], isWord)
  }

  /** The maximal runs of word characters of `text`, left to right. */
  function Tokenize(text: string, isWord: char -> bool): (words: seq<string>)
    ensures forall i :: 0 <= i < |words| ==> IsToken(words[i], isWord)
    decreases |text|
  {
    if text == [] then []
    else if !isWord(text[0]) then Tokenize(text[1..], isWord)
    else
      var k := RunLength(text, isWord);
      [text[..k]] + Tokenize(text[k..], isWord)
  }

  /** A text has no tokens exactly when it has no word character. */
  lemma {:induction false} TokenizeEmpty(text: string, isWord: char -> bool)
    ensures Tokenize(text, isWord) == [] <==> forall j :: 0 <= j < |text| ==> !isWord(text[j])
    decreases |text|
  {
    if text != [] && !isWord(text[0]) {
      TokenizeEmpty(text[1..], isWord);
      forall j | 1 <= j < |text| ensures text[j] == text[1..][j - 1] { }
    }
  }

  /** The word characters of `text`, in order: what `\w+` keeps of it. */
  function WordChars(text: string, isWord: char -> bool): (cs: string)
    decreases |text|
  {
    if text == [] then []
    else if isWord(text[0]) then [text[0]] + WordChars(text[1..], isWord)
    else WordChars(text[1..], isWord)
  }

  lemma {:induction false} WordCharsAppend(a: string, b: string, isWord: char -> bool)
    ensures WordChars(a + b, isWord) == WordChars(a, isWord) + WordChars(b, isWord)
    decreases |a|
  {
    if a == [] {
      assert a + b == b;
    } else {
      assert (a + b)[0] == a[0];
      assert (a + b)[1..] == a[1..] + b;
      WordCharsAppend(a[1..], b, isWord);
    }
  }

  lemma {:induction false} WordCharsOfRun(w: string, isWord: char -> bool)
    requires forall j :: 0 <= j < |w| ==> isWord(w[j])
    ensures WordChars(w, isWord) == w
    decreases |w|
  {
    if w != [] {
      WordCharsOfRun(w[1..], isWord);
      assert [w[0]] + w[1..] == w;
    }
  }

  /**
   * The tokens drop separators and nothing else: their characters, in order,
   * are exactly the word characters of the text.
   */
  lemma {:induction false} TokenizeKeepsWordChars(text: string, isWord: char -> bool)
    ensures Flatten(Tokenize(text, isWord)) == WordChars(text, isWord)
    decreases |text|
  {
    if text != [] {
      if !isWord(text[0]) {
        TokenizeKeepsWordChars(text[1..], isWord);
      } else {
        var k := RunLength(text, isWord);
        var tokens := Tokenize(text, isWord);
        assert tokens == [text[..k]] + Tokenize(text[k..], isWord);
        assert tokens[1..] == Tokenize(text[k..], isWord);
        TokenizeKeepsWordChars(text[k..], isWord);
        WordCharsOfRun(text[..k], isWord);
        assert text[..k] + text[k..] == text;
        WordCharsAppend(text[..k], text[k..], isWord);
      }
    }
  }

  lemma {:induction false} RunLengthOfToken(w: string, rest: string, isWord: char -> bool)
    requires IsToken(w, isWord)
    requires rest == [] || !isWord(rest[0])
    ensures RunLength(w + rest, isWord) == |w|
    decreases |w|
  {
    assert (w + rest)[0] == w[0];
    assert (w + rest)[1..] == w[1..] + rest;
    if |w| > 1 {
      RunLengthOfToken(w[1..], rest, isWord);
    } else {
      assert w[1..] + rest == rest;
    }
  }

  /** A token followed by a separator is read off as that token. */
  lemma TokenizeToken(w: string, rest: string, isWord: char -> bool)
    requires IsToken(w, isWord)
    requires rest == [] || !isWord(rest[0])
    ensures Tokenize(w + rest, isWord) == [w] + Tokenize(rest, isWord)
  {
    RunLengthOfToken(w, rest, isWord);
    assert (w + rest)[..|w|] == w;
    assert (w + rest)[|w|..] == rest;
  }

  /** A leading separator is skipped. */
  lemma TokenizeSeparator(c: char, rest: string, isWord: char -> bool)
    requires !isWord(c)
    ensures Tokenize([c] + rest, isWord) == Tokenize(rest, isWord)
  {
    assert ([c] + rest)[1..] == rest;
  }

  /** A separator ends the leading run: it never reaches past `a`. */
  lemma {:induction false} RunLengthSeparated(a: string, c: char, b: string, isWord: char -> bool)
    requires !isWord(c)
    ensures RunLength(a + [c] + b, isWord) == RunLength(a, isWord)
    decreases |a|
  {
    var s := a + [c] + b;
    if a == [] {
      assert s[0] == c;
    } else {
      assert s[0] == a[0];
      assert s[1..] == a[1..] + [c] + b;
      RunLengthSeparated(a[1..], c, b, isWord);
    }
  }

  /**
   * Tokens are maximal runs: a non-word character splits the text, and the
   * tokens of the two sides concatenate. No token spans the separator.
   */
  lemma {:induction false} TokenizeSplit(a: string, c: char, b: string, isWord: char -> bool)
    requires !isWord(c)
    ensures Tokenize(a + [c] + b, isWord) == Tokenize(a, isWord) + Tokenize(b, isWord)
    decreases |a|
  {
    var s := a + [c] + b;
    if a == [] {
      assert s == [c] + b;
      TokenizeSeparator(c, b, isWord);
    } else if !isWord(a[0]) {
      assert s[0] == a[0];
      assert s[1..] == a[1..] + [c] + b;
      TokenizeSplit(a[1..], c, b, isWord);
    } else {
      assert s[0] == a[0];
      RunLengthSeparated(a, c, b, isWord);
      var k := RunLength(a, isWord);
      assert s[..k] == a[..k];
      assert s[k..] == a[k..] + [c] + b;
      TokenizeSplit(a[k..], c, b, isWord);
    }
  }

  /**
   * Tokenizing space-joined tokens gives the tokens back: a chunk holds no
   * separator but the single spaces between its words.
   */
  lemma {:induction false} TokenizeJoin(ws: seq<string>, isWord: char -> bool)
    requires !isWord(' ')
    requires forall i :: 0 <= i < |ws| ==> IsToken(ws[i], isWord)
    ensures Tokenize(Join(ws), isWord) == ws
    decreases |ws|
  {
    if |ws| == 1 {
      TokenizeToken(ws[0], "", isWord);
      assert ws[0] + "" == ws[0];
    } else if |ws| > 1 {
      var rest := [' '] + Join(ws[1..]);
      assert Join(ws) == ws[0] + rest;
      TokenizeToken(ws[0], rest, isWord);
      TokenizeSeparator(' ', Join(ws[1..]), isWord);
      TokenizeJoin(ws[1..], isWord);
      assert [ws[0]] + ws[1..] == ws;
    }
  }

  // ---------------------------------------------------------------------------
  // Chunking

  /** `math.ceil(total / n)` for a positive `n`, on integers. */
  function CeilDiv(total: nat, n: nat): (k: nat)
    requires n > 0
    ensures k * n >= total
    ensures total > 0 ==> (k - 1) * n < total
    ensures k == 0 <==> total == 0
  {
    var q := (total + n - 1) / n;
    assert q * n + (total + n - 1) % n == total + n - 1;
    q
  }

  function Min(a: int, b: int): int {
    if a <= b then a else b
  }

  /** Multiplying by a natural number keeps order. */
  lemma MulMonotone(a: nat, b: nat, n: nat)
    requires a <= b
    ensures a * n <= b * n
  {
    assert b * n == a * n + (b - a) * n;
  }

  lemma WindowStartInRange(total: nat, n: nat, i: nat)
    requires n > 0 && i < CeilDiv(total, n)
    ensures i * n < total
  {
    MulMonotone(i, CeilDiv(total, n) - 1, n);
  }

  /** Between one and `n` words make exactly one chunk. */
  lemma CeilDivOfAtMost(total: nat, n: nat)
    requires 0 < total <= n
    ensures CeilDiv(total, n) == 1
  {
    var k := CeilDiv(total, n);
    if k >= 2 {
      MulMonotone(1, k - 1, n);
    }
  }

  /** The words of chunk `i`: `words[i*n : (i+1)*n]`, the slice clamped at the end. */
  function Window(words: seq<string>, n: nat, i: nat): (w: seq<string>)
    requires n > 0 && i < CeilDiv(|words|, n)
  {
    WindowStartInRange(|words|, n, i);
    words[i * n .. Min((i + 1) * n, |words|)]
  }

  /** `chunks` are the chunks of `words`: one per window, each its words space-joined. */
  predicate IsChunking(words: seq<string>, n: nat, chunks: seq<string>)
    requires n > 0
  {
    && |chunks| == CeilDiv(|words|, n)
    && forall i :: 0 <= i < |chunks| ==> chunks[i] == Join(Window(words, n, i))
  }

  /**
   * `long_chunk(text, context_length=512)`.  A zero length raises; a negative
   * one makes the number of repeats non-positive, so no chunk is produced.
   */
  method LongChunk(text: string, contextLength: int := 512, isWord: char -> bool)
    returns (r: Result<seq<string>, ChunkError>)
    ensures contextLength == 0 ==> r == Failure(ZeroDivision)
    ensures contextLength < 0 ==> r == Success([])
    ensures contextLength > 0 ==> r.Success? && IsChunking(Tokenize(text, isWord), contextLength, r.value)
  {
    var words := Tokenize(text, isWord);
    var totalWords := |words|;
    if contextLength == 0 {
      return Failure(ZeroDivision);
    }
    var repeats := if contextLength > 0 then CeilDiv(totalWords, contextLength) else 0;
    var chunks: seq<string> := [];
    var tracker := 0;
    for i := 0 to repeats
      invariant tracker == i * contextLength
      invariant |chunks| == i
      invariant forall j :: 0 <= j < i ==> chunks[j] == Join(Window(words, contextLength, j))
    {
      var b := (i + 1) * contextLength;
      WindowStartInRange(totalWords, contextLength, i);
      var chunkedText := Join(words[tracker .. Min(b, totalWords)]);
      chunks := chunks + [chunkedText];
      tracker := b;
    }
    return Success(chunks);
  }

  /**
   * Every chunk but the last has exactly `n` words; the last has between one
   * and `n`.
   */
  lemma WindowSize(words: seq<string>, n: nat, i: nat)
    requires n > 0 && i < CeilDiv(|words|, n)
    ensures i < CeilDiv(|words|, n) - 1 ==> |Window(words, n, i)| == n
    ensures i == CeilDiv(|words|, n) - 1 ==> 1 <= |Window(words, n, i)| <= n
  {
    var k := CeilDiv(|words|, n);
    WindowStartInRange(|words|, n, i);
    assert (i + 1) * n == i * n + n;
    if i < k - 1 {
      WindowStartInRange(|words|, n, i + 1);
    }
  }

  lemma WindowTokens(words: seq<string>, n: nat, i: nat, isWord: char -> bool)
    requires n > 0 && i < CeilDiv(|words|, n)
    requires forall j :: 0 <= j < |words| ==> IsToken(words[j], isWord)
    ensures forall j :: 0 <= j < |Window(words, n, i)| ==> IsToken(Window(words, n, i)[j], isWord)
  {
    WindowStartInRange(|words|, n, i);
    var w := Window(words, n, i);
    forall j | 0 <= j < |w| ensures IsToken(w[j], isWord) {
      assert w[j] == words[i * n + j];
    }
  }

  /** All the windows of `words`, in order. */
  function Windows(words: seq<string>, n: nat): seq<seq<string>>
    requires n > 0
  {
    seq(CeilDiv(|words|, n), i requires 0 <= i < CeilDiv(|words|, n) => Window(words, n, i))
  }

  lemma {:induction false} WindowsPrefix(words: seq<string>, n: nat, m: nat)
    requires n > 0 && m <= CeilDiv(|words|, n)
    ensures Flatten(Windows(words, n)[..m]) == words[..Min(m * n, |words|)]
  {
    if m > 0 {
      var ws := Windows(words, n);
      var lo, hi := (m - 1) * n, Min(m * n, |words|);
      WindowsPrefix(words, n, m - 1);
      WindowStartInRange(|words|, n, m - 1);
      assert ((m - 1) + 1) * n == m * n;
      assert ws[m - 1] == words[lo..hi];
      assert Min(lo, |words|) == lo;
      assert ws[..m] == ws[..m - 1] + [ws[m - 1]];
      FlattenSnoc(ws[..m - 1], ws[m - 1]);
      assert words[..lo] + words[lo..hi] == words[..hi];
    }
  }

  /** The windows, in order, are the words exactly: no gap, no overlap. */
  lemma WindowsCover(words: seq<string>, n: nat)
    requires n > 0
    ensures Flatten(Windows(words, n)) == words
  {
    var ws := Windows(words, n);
    WindowsPrefix(words, n, |ws|);
    assert ws[..|ws|] == ws;
  }

  /** The tokens of each chunk, in order. */
  function Retokenized(chunks: seq<string>, isWord: char -> bool): (ts: seq<seq<string>>)
    ensures |ts| == |chunks|
    ensures forall i :: 0 <= i < |chunks| ==> ts[i] == Tokenize(chunks[i], isWord)
  {
    seq(|chunks|, i requires 0 <= i < |chunks| => Tokenize(chunks[i], isWord))
  }

  /**
   * Re-tokenizing the chunks, in order, reproduces the tokens of the text,
   * as long as the joining space is not itself a word character.
   */
  lemma ChunksReconstructTokens(text: string, isWord: char -> bool, n: nat, chunks: seq<string>)
    requires !isWord(' ') && n > 0
    requires IsChunking(Tokenize(text, isWord), n, chunks)
    ensures Flatten(Retokenized(chunks, isWord)) == Tokenize(text, isWord)
  {
    var words := Tokenize(text, isWord);
    var tokens := Retokenized(chunks, isWord);
    var windows := Windows(words, n);
    forall i | 0 <= i < |chunks| ensures tokens[i] == windows[i] {
      WindowTokens(words, n, i, isWord);
      TokenizeJoin(windows[i], isWord);
    }
    assert tokens == windows;
    WindowsCover(words, n);
  }

  /** A text with no word character has no chunk. */
  lemma NoWordsNoChunks(text: string, isWord: char -> bool, n: nat, chunks: seq<string>)
    requires n > 0
    requires forall j :: 0 <= j < |text| ==> !isWord(text[j])
    requires IsChunking(Tokenize(text, isWord), n, chunks)
    ensures chunks == []
  {
    TokenizeEmpty(text, isWord);
  }

  /**
   * A text of between one and `n` words (exactly `n`, say) is one chunk: its
   * words, single-spaced.
   */
  lemma SingleChunk(text: string, isWord: char -> bool, n: nat, chunks: seq<string>)
    requires 0 < |Tokenize(text, isWord)| <= n
    requires IsChunking(Tokenize(text, isWord), n, chunks)
    ensures chunks == [Join(Tokenize(text, isWord))]
  {
    var words := Tokenize(text, isWord);
    CeilDivOfAtMost(|words|, n);
    assert Window(words, n, 0) == words;
  }
}
