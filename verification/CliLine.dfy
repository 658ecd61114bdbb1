/** The words of a console line, and how a line is split into them in place. */
module CliLine {
  import opened Base

  type Text = seq<Byte>

  const NUL: Byte := 0

  predicate IsSeparator(c: Byte) { c == 0x20 || c == 0x09 }

  predicate Plain(word: Text) { forall c :: c in word ==> !IsSeparator(c) && c != NUL }

  // ---------------------------------------------------------------------------
  // Words

  /** Where the word at the front of a text ends. */
  function WordEnd(text: Text): (k: nat)
    ensures k <= |text|
    ensures forall i :: 0 <= i < k ==> !IsSeparator(text[i])
    ensures k < |text| ==> IsSeparator(text[k])
    decreases |text|
  {
    if text == [] || IsSeparator(text[0]) then 0 else 1 + WordEnd(text[1..])
  }

  /** The words of a text. */
  function Words(text: Text): (words: seq<Text>)
    decreases |text|
  {
    if text == [] then []
    else if IsSeparator(text[0]) then Words(text[1..])
    else
      var k := WordEnd(text);
      [text[..k]] + Words(text[k..])
  }

  /** The text of a line ends on a separator, or is empty: a new word begins. */
  predicate EndsOnSeparator(text: Text) { text == [] || IsSeparator(text[|text| - 1]) }

  lemma {:induction false} WordEndOfAppended(head: Text, w: Text)
    requires head != [] && EndsOnSeparator(head)
    ensures WordEnd(head) < |head| && WordEnd(head + w) == WordEnd(head)
    decreases |head|
  {
    if IsSeparator(head[0]) {
    } else {
      assert (head + w)[1..] == head[1..] + w;
      WordEndOfAppended(head[1..], w);
    }
  }

  lemma {:induction false} WordEndOfWord(w: Text)
    requires forall c :: c in w ==> !IsSeparator(c)
    ensures WordEnd(w) == |w|
    decreases |w|
  {
    if w == [] {
    } else {
      WordEndOfWord(w[1..]);
    }
  }

  /** A word typed where a new word begins is one more word. */
  lemma {:induction false} OneMoreWord(head: Text, w: Text)
    requires EndsOnSeparator(head) && w != [] && forall c :: c in w ==> !IsSeparator(c)
    ensures Words(head + w) == Words(head) + [w]
    decreases |head|
  {
    if head == [] {
      assert head + w == w;
      WordEndOfWord(w);
      assert w[..|w|] == w && w[|w|..] == [];
      assert Words(w) == [w] + Words([]);
    } else if IsSeparator(head[0]) {
      assert (head + w)[1..] == head[1..] + w;
      OneMoreWord(head[1..], w);
    } else {
      var k := WordEnd(head);
      WordEndOfAppended(head, w);
      assert (head + w)[..k] == head[..k] && (head + w)[k..] == head[k..] + w;
      OneMoreWord(head[k..], w);
      assert [head[..k]] + (Words(head[k..]) + [w]) == [head[..k]] + Words(head[k..]) + [w];
    }
  }

  /** Where the last, partly typed, word of a text begins. */
  function LastWordStart(text: Text): (at: nat)
    ensures at <= |text|
    ensures !EndsOnSeparator(text) ==> at < |text|
    ensures EndsOnSeparator(text[..at])
    ensures forall c :: c in text[at..] ==> !IsSeparator(c)
  {
    if EndsOnSeparator(text) then |text|
    else
      var n := |text| - 1;
      assert forall at :: 0 <= at <= n ==> text[at..] == text[..n][at..] + [text[n]];
      assert forall at :: 0 <= at <= n ==> text[..n][..at] == text[..at];
      if EndsOnSeparator(text[..n]) then n else LastWordStart(text[..n])
  }

  /** A text that stops part way through a word has that part as its last word. */
  lemma PartialWordIsLast(text: Text)
    requires !EndsOnSeparator(text)
    ensures var at := LastWordStart(text);
      at < |text| && Words(text) == Words(text[..at]) + [text[at..]]
  {
    var at := LastWordStart(text);
    OneMoreWord(text[..at], text[at..]);
    assert text == text[..at] + text[at..];
  }

  // ---------------------------------------------------------------------------
  // Splitting a line in place

  /** The string at a position of a buffer: everything up to the next terminator. */
  function StringAt(buffer: Text, at: nat): (s: Text)
    requires at <= |buffer|
    decreases |buffer| - at
  {
    if at == |buffer| || buffer[at] == NUL then [] else [buffer[at]] + StringAt(buffer, at + 1)
  }

  lemma {:induction false} StringIsWord(buffer: Text, at: nat, word: Text)
    requires at + |word| < |buffer| && buffer[at..at + |word|] == word && buffer[at + |word|] == NUL && NUL !in word
    ensures StringAt(buffer, at) == word
    decreases |word|
  {
    if word == [] {
    } else {
      assert buffer[at] == word[0];
      assert buffer[at + 1..at + 1 + |word[1..]|] == word[1..];
      StringIsWord(buffer, at + 1, word[1..]);
    }
  }

  /** A word lies in the buffer at a position, with its terminator, all of it before `i`. */
  ghost predicate Placed(buffer: Text, at: nat, word: Text, i: nat)
  {
    && at + |word| < |buffer| && at + |word| <= i
    && buffer[at..at + |word|] == word && buffer[at + |word|] == NUL && NUL !in word
  }

  ghost predicate AllPlaced(buffer: Text, tokens: seq<nat>, words: seq<Text>, i: nat)
  {
    |tokens| <= |words| && forall k :: 0 <= k < |tokens| ==> Placed(buffer, tokens[k], words[k], i)
  }

  lemma {:induction false} SkippedSeparators(text: Text, from: nat, to: nat)
    requires from <= to <= |text| && forall k :: from <= k < to ==> IsSeparator(text[k])
    ensures Words(text[from..]) == Words(text[to..])
    decreases |text| - from
  {
    if from == to {
    } else {
      assert text[from..][1..] == text[from + 1..];
      SkippedSeparators(text, from + 1, to);
    }
  }

  /** A stretch without separators, up to one or to the end, is the word there. */
  lemma {:induction false} StretchIsWord(text: Text, k: nat)
    requires k <= |text| && forall i :: 0 <= i < k ==> !IsSeparator(text[i])
    requires k < |text| ==> IsSeparator(text[k])
    ensures WordEnd(text) == k
    decreases k
  {
    if k == 0 {
    } else {
      StretchIsWord(text[1..], k - 1);
    }
  }

  /** The words from a place on: the word there, and those after the separator that ends it. */
  lemma WordThere(text: Text, start: nat, end: nat)
    requires start < end <= |text|
    requires forall i :: start <= i < end ==> !IsSeparator(text[i])
    requires end < |text| ==> IsSeparator(text[end])
    ensures Words(text[start..]) == [text[start..end]] + Words(text[if end < |text| then end + 1 else end..])
  {
    var rest := text[start..];
    StretchIsWord(rest, end - start);
    assert rest[..end - start] == text[start..end] && rest[end - start..] == text[end..];
    if end < |text| {
      assert text[end..][1..] == text[end + 1..];
    }
  }

  lemma PlacedStays(before: Text, after: Text, tokens: seq<nat>, words: seq<Text>, i: nat, j: nat)
    requires AllPlaced(before, tokens, words, i) && i < j <= |before| == |after|
    requires before[..j] == after[..j]
    ensures AllPlaced(after, tokens, words, j)
  {
    forall k | 0 <= k < |tokens|
      ensures Placed(after, tokens[k], words[k], j)
    {
      var at, end := tokens[k], tokens[k] + |words[k]|;
      assert Placed(before, at, words[k], i);
      assert after[at..end] == after[..j][at..end] && before[at..end] == before[..j][at..end];
      assert after[end] == after[..j][end] && before[end] == before[..j][end];
    }
  }

  method SkipSeparators(line: array<Byte>, n: nat, from: nat) returns (i: nat)
    requires from <= n < line.Length
    ensures from <= i <= n && forall k :: from <= k < i ==> IsSeparator(line[k])
    ensures i < n ==> !IsSeparator(line[i])
  {
    i := from;
    while i < n && IsSeparator(line[i])
      invariant from <= i <= n && forall k :: from <= k < i ==> IsSeparator(line[k])
    {
      i := i + 1;
    }
  }

  method SkipWord(line: array<Byte>, n: nat, from: nat) returns (i: nat)
    requires from <= n < line.Length
    ensures from <= i <= n && forall k :: from <= k < i ==> !IsSeparator(line[k])
    ensures i < n ==> IsSeparator(line[i])
  {
    i := from;
    while i < n && !IsSeparator(line[i])
      invariant from <= i <= n && forall k :: from <= k < i ==> !IsSeparator(line[k])
    {
      i := i + 1;
    }
  }

  /** The tokens found so far are the words before `i`, and the line from there on is untouched. */
  ghost predicate SplitTo(buffer: Text, text: Text, tokens: seq<nat>, words: seq<Text>, i: nat)
  {
    && i <= |text| < |buffer| && buffer[|text|] == NUL && NUL !in text
    && |tokens| <= |words| && words[|tokens|..] == Words(text[i..])
    && (forall k :: i <= k < |text| ==> buffer[k] == text[k])
    && AllPlaced(buffer, tokens, words, i)
    && (forall k :: 0 <= k < |tokens| ==> tokens[k] < |text|)
  }

  lemma NextWordPlaced(before: Text, after: Text, text: Text, tokens: seq<nat>, words: seq<Text>,
                       i: nat, start: nat, end: nat)
    requires SplitTo(before, text, tokens, words, i) && i <= start < end <= |text|
    requires forall k :: i <= k < start ==> IsSeparator(text[k])
    requires forall k :: start <= k < end ==> !IsSeparator(text[k])
    requires end < |text| ==> IsSeparator(text[end])
    requires after == before[end := NUL]
    ensures |tokens| < |words|
    ensures SplitTo(after, text, tokens + [start], words, if end < |text| then end + 1 else end)
  {
    var next := if end < |text| then end + 1 else end;
    NextWord(text, tokens, words, i, start, end);
    PlacedStays(before, after, tokens, words, i, end);
    WordPlaced(before, after, text, start, end);
    OneMorePlaced(after, tokens, words, start, end, next);
  }

  /** The next word of the text is the next of its words. */
  lemma NextWord(text: Text, tokens: seq<nat>, words: seq<Text>, i: nat, start: nat, end: nat)
    requires i <= start < end <= |text| && |tokens| <= |words| && words[|tokens|..] == Words(text[i..])
    requires forall k :: i <= k < start ==> IsSeparator(text[k])
    requires forall k :: start <= k < end ==> !IsSeparator(text[k])
    requires end < |text| ==> IsSeparator(text[end])
    ensures |tokens| < |words| && words[|tokens|] == text[start..end]
    ensures words[|tokens| + 1..] == Words(text[if end < |text| then end + 1 else end..])
  {
    SkippedSeparators(text, i, start);
    WordThere(text, start, end);
    var rest := words[|tokens|..];
    assert rest[0] == words[|tokens|] && rest[1..] == words[|tokens| + 1..];
  }

  lemma WordPlaced(before: Text, after: Text, text: Text, start: nat, end: nat)
    requires start < end <= |text| < |before| && NUL !in text && after == before[end := NUL]
    requires forall k :: start <= k < end ==> before[k] == text[k]
    ensures Placed(after, start, text[start..end], end)
  {
    assert after[start..end] == text[start..end];
    assert NUL !in text[start..end];
  }

  lemma OneMorePlaced(buffer: Text, tokens: seq<nat>, words: seq<Text>, start: nat, end: nat, next: nat)
    requires AllPlaced(buffer, tokens, words, end) && end <= next && |tokens| < |words|
    requires Placed(buffer, start, words[|tokens|], end)
    ensures AllPlaced(buffer, tokens + [start], words, next)
  {
    forall k | 0 <= k < |tokens|
      ensures Placed(buffer, tokens[k], words[k], next)
    {
      assert Placed(buffer, tokens[k], words[k], end);
    }
  }

  /**
   `tokenize`: separators become terminators, so each token is a string inside the line. The
   words found are the words of the line, up to the limit.
   */
  method Tokenize(line: array<Byte>, n: nat, limit: nat) returns (tokens: seq<nat>, tooMany: bool)
    requires n < line.Length && line[n] == NUL && forall i :: 0 <= i < n ==> line[i] != NUL
    modifies line
    ensures var words := Words(old(line[..n]));
      && tooMany == (|words| > limit)
      && |tokens| == (if tooMany then limit else |words|)
      && (forall k :: 0 <= k < |tokens| ==> tokens[k] < n && StringAt(line[..], tokens[k]) == words[k])
  {
    ghost var text, words := line[..n], Words(line[..n]);
    var i := 0;
    tokens, tooMany := [], false;
    assert text[0..] == text;
    while true
      invariant |tokens| <= limit && |text| == n && SplitTo(line[..], text, tokens, words, i)
      decreases n - i
    {
      var start := SkipSeparators(line, n, i);
      assert forall k :: i <= k < start ==> IsSeparator(text[k]);
      if start == n {
        SkippedSeparators(text, i, n);
        assert text[n..] == [];
        break;
      }
      var end := SkipWord(line, n, start);
      assert forall k :: start <= k < end ==> !IsSeparator(text[k]);
      NextWordPlaced(line[..], line[..][end := NUL], text, tokens, words, i, start, end);
      if |tokens| >= limit {
        tooMany := true;
        break;
      }
      line[end] := NUL;
      i := if end < n then end + 1 else end;
      tokens := tokens + [start];
    }
    TokensAreWords(line[..], text, tokens, words, i);
  }

  lemma TokensAreWords(buffer: Text, text: Text, tokens: seq<nat>, words: seq<Text>, i: nat)
    requires SplitTo(buffer, text, tokens, words, i)
    ensures forall k :: 0 <= k < |tokens| ==> tokens[k] < |text| && StringAt(buffer, tokens[k]) == words[k]
  {
    forall k | 0 <= k < |tokens|
      ensures StringAt(buffer, tokens[k]) == words[k]
    {
      assert Placed(buffer, tokens[k], words[k], i);
      StringIsWord(buffer, tokens[k], words[k]);
    }
  }
}
