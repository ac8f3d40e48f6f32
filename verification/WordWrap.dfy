/** Greedy word wrap. A text is a sequence of bytes, as Go's len counts it. */
module WordWrap {
  type Word = string

  predicate IsSpace(c: char) { c == ' ' || ('\t' <= c <= '\r') }

  /** Everything up to the first space, and what follows it. */
  function FieldEnd(text: string): (n: nat)
    ensures n <= |text|
    ensures forall k | 0 <= k < n :: !IsSpace(text[k])
    ensures n < |text| ==> IsSpace(text[n])
  {
    if text == [] || IsSpace(text[0]) then 0 else 1 + FieldEnd(text[1..])
  }

  /** strings.Fields */
  function Fields(text: string): seq<Word>
    decreases |text|
  {
    if text == [] then []
    else if IsSpace(text[0]) then Fields(text[1..])
    else
      var n := FieldEnd(text);
      [text[..n]] + Fields(text[n..])
  }

  lemma {:induction false} FieldsAreWords(text: string)
    ensures forall w | w in Fields(text) :: IsWord(w)
    decreases |text|
  {
    if text != [] {
      if IsSpace(text[0]) {
        FieldsAreWords(text[1..]);
      } else {
        FieldsAreWords(text[FieldEnd(text)..]);
      }
    }
  }

  /** The text without its white space. */
  function Letters(text: string): string {
    if text == "" then "" else (if IsSpace(text[0]) then "" else [text[0]]) + Letters(text[1..])
  }

  function Concat(words: seq<Word>): string {
    if words == [] then "" else words[0] + Concat(words[1..])
  }

  lemma {:induction false} LettersOfField(text: string, n: nat)
    requires n <= |text| && forall k | 0 <= k < n :: !IsSpace(text[k])
    ensures Letters(text) == text[..n] + Letters(text[n..])
  {
    if n > 0 {
      LettersOfField(text[1..], n - 1);
      assert text[1..][n - 1..] == text[n..] && text[..n] == [text[0]] + text[1..][..n - 1];
    } else {
      assert text[0..] == text;
    }
  }

  /** The fields hold every letter of the text, in order, and nothing else. */
  lemma {:induction false} FieldsKeepLetters(text: string)
    ensures Concat(Fields(text)) == Letters(text)
    decreases |text|
  {
    if text != "" {
      if IsSpace(text[0]) {
        FieldsKeepLetters(text[1..]);
      } else {
        var n := FieldEnd(text);
        LettersOfField(text, n);
        FieldsKeepLetters(text[n..]);
        var rest := Fields(text[n..]);
        assert ([text[..n]] + rest)[1..] == rest;
      }
    }
  }

  predicate IsWord(w: Word) { w != [] && forall c | c in w :: !IsSpace(c) }

  /** The words of one line, one space between each. */
  function JoinWords(words: seq<Word>): string {
    if words == [] then ""
    else if |words| == 1 then words[0]
    else JoinWords(words[..|words| - 1]) + " " + words[|words| - 1]
  }

  function JoinLines(lines: seq<string>): string {
    if lines == [] then "" else if |lines| == 1 then lines[0] else lines[0] + ("\n" + JoinLines(lines[1..]))
  }

  function Flatten(groups: seq<seq<Word>>): seq<Word> {
    if groups == [] then [] else groups[0] + Flatten(groups[1..])
  }

  function Lines(groups: seq<seq<Word>>): (lines: seq<string>)
    ensures |lines| == |groups|
  {
    if groups == [] then [] else [JoinWords(groups[0])] + Lines(groups[1..])
  }

  /** A line is too wide only if it is a single word that is. */
  predicate FitsLine(group: seq<Word>, width: int) {
    |group| >= 1 && (|group| >= 2 ==> |JoinWords(group)| <= width)
  }

  /** Some way of breaking these words into lines under the width rule. */
  ghost predicate Breaks(groups: seq<seq<Word>>, words: seq<Word>, width: int) {
    Flatten(groups) == words && forall g | g in groups :: FitsLine(g, width)
  }

  /** The rest of the greedy breaking, with cur on the line being filled. */
  function Greedy(cur: seq<Word>, rest: seq<Word>, width: int): seq<seq<Word>>
    decreases |rest|
  {
    if rest == [] then [cur]
    else if |JoinWords(cur)| + 1 + |rest[0]| > width then [cur] + Greedy([rest[0]], rest[1..], width)
    else Greedy(cur + [rest[0]], rest[1..], width)
  }

  lemma JoinWordsAppend(cur: seq<Word>, w: Word)
    requires cur != []
    ensures JoinWords(cur + [w]) == JoinWords(cur) + " " + w
  {
    assert (cur + [w])[..|cur|] == cur;
  }

  /** The wrapped lines of a text: the greedy breaking of its words. */
  function WrapGroups(text: string, width: int): seq<seq<Word>> {
    var words := Fields(text);
    if words == [] then [[]] else Greedy([words[0]], words[1..], width)
  }

  /** The lines still to come, given the one being filled. */
  function GreedyLines(current: string, rest: seq<Word>, width: int): seq<string>
    decreases |rest|
  {
    if rest == [] then [current]
    else if |current| + 1 + |rest[0]| > width then [current] + GreedyLines(rest[0], rest[1..], width)
    else GreedyLines(current + " " + rest[0], rest[1..], width)
  }

  lemma LinesCons(g: seq<Word>, groups: seq<seq<Word>>)
    ensures Lines([g] + groups) == [JoinWords(g)] + Lines(groups)
  {
    assert ([g] + groups)[1..] == groups;
  }

  lemma {:induction false} GreedyLinesAre(cur: seq<Word>, rest: seq<Word>, width: int)
    requires cur != []
    ensures GreedyLines(JoinWords(cur), rest, width) == Lines(Greedy(cur, rest, width))
    decreases |rest|
  {
    if rest == [] {
      LinesCons(cur, []);
      assert [cur] + [] == [cur];
    } else if |JoinWords(cur)| + 1 + |rest[0]| > width {
      GreedyLinesAre([rest[0]], rest[1..], width);
      LinesCons(cur, Greedy([rest[0]], rest[1..], width));
    } else {
      JoinWordsAppend(cur, rest[0]);
      GreedyLinesAre(cur + [rest[0]], rest[1..], width);
    }
  }

  method Wrap(text: string, width: int) returns (lines: seq<string>)
    ensures lines == Lines(WrapGroups(text, width))
  {
    var words := Fields(text);
    if |words| == 0 {
      LinesCons([], []);
      return [""];
    }
    GreedyLinesAre([words[0]], words[1..], width);
    lines := FillLines(words, width);
  }

  /** The loop. */
  method FillLines(words: seq<Word>, width: int) returns (lines: seq<string>)
    requires words != []
    ensures lines == GreedyLines(words[0], words[1..], width)
  {
    lines := [];
    var current := words[0];
    var i := 1;
    while i < |words|
      invariant 1 <= i <= |words|
      invariant lines + GreedyLines(current, words[i..], width) == GreedyLines(words[0], words[1..], width)
    {
      var word := words[i];
      assert words[i..][0] == word && words[i..][1..] == words[i + 1..];
      if |current| + 1 + |word| > width {
        lines := lines + [current];
        current := word;
      } else {
        current := current + " " + word;
      }
      i := i + 1;
    }
    lines := lines + [current];
  }

  // ---- Nothing lost ----

  lemma FlattenCons(g: seq<Word>, groups: seq<seq<Word>>)
    ensures Flatten([g] + groups) == g + Flatten(groups)
  {
    assert ([g] + groups)[1..] == groups;
  }

  /** Greedy keeps the word sequence and obeys the width rule. */
  lemma {:induction false} GreedyBreaks(cur: seq<Word>, rest: seq<Word>, width: int)
    requires FitsLine(cur, width)
    ensures Breaks(Greedy(cur, rest, width), cur + rest, width)
    decreases |rest|
  {
    if rest == [] {
      FlattenCons(cur, []);
      assert [cur] + [] == [cur];
    } else if |JoinWords(cur)| + 1 + |rest[0]| > width {
      GreedyBreaks([rest[0]], rest[1..], width);
      FlattenCons(cur, Greedy([rest[0]], rest[1..], width));
      assert cur + ([rest[0]] + rest[1..]) == cur + rest;
    } else {
      JoinWordsAppend(cur, rest[0]);
      GreedyBreaks(cur + [rest[0]], rest[1..], width);
      assert (cur + [rest[0]]) + rest[1..] == cur + rest;
    }
  }

  // ---- Fewest lines ----

  lemma {:induction false} JoinSuffixShorter(group: seq<Word>, k: nat)
    requires k < |group|
    ensures |JoinWords(group[k..])| <= |JoinWords(group)|
    decreases |group|
  {
    if |group| - k >= 2 {
      var shorter := group[..|group| - 1];
      JoinSuffixShorter(shorter, k);
      assert shorter[k..] == group[k..][..|group| - k - 1];
    } else {
      assert group[k..] == [group[|group| - 1]];
    }
  }

  lemma {:induction false} JoinPrefixShorter(group: seq<Word>, k: nat)
    requires 1 <= k <= |group|
    ensures |JoinWords(group[..k])| <= |JoinWords(group)|
    decreases |group|
  {
    if k < |group| {
      JoinPrefixShorter(group[..|group| - 1], k);
      assert group[..|group| - 1][..k] == group[..k];
    } else {
      assert group[..k] == group;
    }
  }

  function GreedyAll(words: seq<Word>, width: int): seq<seq<Word>> {
    if words == [] then [] else Greedy([words[0]], words[1..], width)
  }

  lemma NextFits(cur: seq<Word>, rest: seq<Word>, width: int, m: nat)
    requires cur != [] && 1 <= m <= |rest| && FitsLine(cur + rest[..m], width)
    ensures |JoinWords(cur)| + 1 + |rest[0]| <= width
  {
    JoinPrefixShorter(cur + rest[..m], |cur| + 1);
    assert (cur + rest[..m])[..|cur| + 1] == cur + [rest[0]];
    JoinWordsAppend(cur, rest[0]);
  }

  lemma Regroup(cur: seq<Word>, rest: seq<Word>, k: nat)
    requires k < |rest|
    ensures (cur + [rest[0]]) + rest[1..][..k] == cur + rest[..k + 1] && rest[1..][k..] == rest[k + 1..]
  {
  }

  lemma FitsOnward(cur: seq<Word>, rest: seq<Word>, width: int, m: nat)
    requires cur != [] && rest != [] && m <= |rest| && FitsLine(cur + rest[..m], width)
    requires |JoinWords(cur)| + 1 + |rest[0]| <= width
    ensures FitsLine((cur + [rest[0]]) + rest[1..][..if m == 0 then 0 else m - 1], width)
  {
    if m == 0 {
      JoinWordsAppend(cur, rest[0]);
      assert (cur + [rest[0]]) + rest[1..][..0] == cur + [rest[0]];
    } else {
      Regroup(cur, rest, m - 1);
    }
  }

  /** Greedy's first line holds every prefix that fits. */
  lemma {:induction false} FirstLineIsLongest(cur: seq<Word>, rest: seq<Word>, width: int, m: nat) returns (k: nat)
    requires cur != [] && m <= |rest| && FitsLine(cur + rest[..m], width)
    ensures m <= k <= |rest|
    ensures Greedy(cur, rest, width) == [cur + rest[..k]] + GreedyAll(rest[k..], width)
    decreases |rest|
  {
    if m > 0 {
      NextFits(cur, rest, width, m);
    }
    if rest == [] {
      k := 0;
      assert cur + rest[..0] == cur;
    } else if |JoinWords(cur)| + 1 + |rest[0]| > width {
      k := 0;
      assert cur + rest[..0] == cur && rest[0..] == rest;
    } else {
      FitsOnward(cur, rest, width, m);
      k := FirstLineIsLongest(cur + [rest[0]], rest[1..], width, if m == 0 then 0 else m - 1);
      Regroup(cur, rest, k);
      k := k + 1;
    }
  }

  lemma RivalTail(words: seq<Word>, width: int, rival: seq<seq<Word>>)
    requires rival != [] && Breaks(rival, words, width)
    ensures |rival[0]| <= |words| && words[..|rival[0]|] == rival[0] && FitsLine(rival[0], width)
    ensures Breaks(rival[1..], words[|rival[0]|..], width)
  {
    assert rival[0] in rival && rival == [rival[0]] + rival[1..];
    FlattenCons(rival[0], rival[1..]);
  }

  /** Starting inside the rival's line, greedy's first line reaches at least to its end. */
  lemma FirstLineCovers(words: seq<Word>, width: int, g: seq<Word>, p: nat) returns (n: nat)
    requires p < |g| <= |words| && words[..|g|] == g && FitsLine(g, width)
    ensures |g| <= n <= |words|
    ensures |GreedyAll(words[p..], width)| == 1 + |GreedyAll(words[n..], width)|
  {
    var ahead := words[p..];
    var m := |g| - p - 1;
    assert [ahead[0]] + ahead[1..][..m] == g[p..];
    JoinSuffixShorter(g, p);
    var k := FirstLineIsLongest([ahead[0]], ahead[1..], width, m);
    n := p + 1 + k;
    assert ahead[1..][k..] == words[n..];
  }

  /** Greedy stays ahead: from a line start no earlier than the rival's it needs no more lines. */
  lemma {:induction false} StaysAhead(words: seq<Word>, width: int, rival: seq<seq<Word>>, p: nat)
    requires p <= |words| && Breaks(rival, words, width)
    ensures |GreedyAll(words[p..], width)| <= |rival|
    decreases |rival|
  {
    if p < |words| {
      assert rival != [];
      var g := rival[0];
      RivalTail(words, width, rival);
      if |g| <= p {
        StaysAhead(words[|g|..], width, rival[1..], p - |g|);
        assert words[|g|..][p - |g|..] == words[p..];
      } else {
        var n := FirstLineCovers(words, width, g, p);
        StaysAhead(words[|g|..], width, rival[1..], n - |g|);
        assert words[|g|..][n - |g|..] == words[n..];
      }
    }
  }

  // ---- Reading the lines back ----

  lemma {:induction false} FieldsOfWord(w: Word, rest: string)
    requires IsWord(w) && (rest == [] || IsSpace(rest[0]))
    ensures Fields(w + rest) == [w] + Fields(rest)
  {
    FieldEndIs(w, rest);
    assert (w + rest)[..|w|] == w && (w + rest)[|w|..] == rest;
    assert !IsSpace(w[0]) && (w + rest)[0] == w[0];
  }

  lemma {:induction false} FieldEndIs(w: string, rest: string)
    requires (forall c | c in w :: !IsSpace(c)) && (rest == [] || IsSpace(rest[0]))
    ensures FieldEnd(w + rest) == |w|
  {
    if w == [] {
      assert w + rest == rest;
    } else {
      assert w[0] in w && (w + rest)[1..] == w[1..] + rest;
      FieldEndIs(w[1..], rest);
    }
  }

  lemma FieldsOfTail(w: Word, rest: string)
    requires IsWord(w) && (rest == [] || IsSpace(rest[0]))
    ensures Fields(" " + (w + rest)) == [w] + Fields(rest)
  {
    FieldsOfWord(w, rest);
    assert (" " + (w + rest))[1..] == w + rest;
  }

  lemma SnocAppend(front: seq<Word>, last: Word, rest: seq<Word>)
    ensures front + ([last] + rest) == (front + [last]) + rest
  {
  }

  lemma JoinSplits(words: seq<Word>, rest: string)
    requires |words| >= 2
    ensures JoinWords(words) + rest == JoinWords(words[..|words| - 1]) + (" " + (words[|words| - 1] + rest))
  {
  }

  lemma {:induction false} FieldsOfJoin(words: seq<Word>, rest: string)
    requires words != [] && (forall w | w in words :: IsWord(w)) && (rest == [] || IsSpace(rest[0]))
    ensures Fields(JoinWords(words) + rest) == words + Fields(rest)
    decreases |words|
  {
    var front, last := words[..|words| - 1], words[|words| - 1];
    if front == [] {
      FieldsOfWord(last, rest);
      assert words == [last];
    } else {
      FieldsOfTail(last, rest);
      FieldsOfJoin(front, " " + (last + rest));
      JoinSplits(words, rest);
      SnocAppend(front, last, Fields(rest));
      assert words == front + [last];
    }
  }

  lemma {:induction false} FieldsOfLines(groups: seq<seq<Word>>)
    requires groups != [] && forall g | g in groups :: g != [] && forall w | w in g :: IsWord(w)
    ensures Fields(JoinLines(Lines(groups))) == Flatten(groups)
    decreases |groups|
  {
    var g := groups[0];
    assert g in groups;
    if |groups| == 1 {
      FieldsOfJoin(g, "");
      assert JoinWords(g) + "" == JoinWords(g) && Flatten(groups[1..]) == [];
    } else {
      var tail := JoinLines(Lines(groups[1..]));
      forall h | h in groups[1..]
        ensures h != [] && forall w | w in h :: IsWord(w)
      {
        assert h in groups;
      }
      FieldsOfLines(groups[1..]);
      FieldsOfLine(g, tail);
      JoinLinesSplits(groups);
    }
  }

  lemma FieldsOfLine(g: seq<Word>, tail: string)
    requires g != [] && forall w | w in g :: IsWord(w)
    ensures Fields(JoinWords(g) + ("\n" + tail)) == g + Fields(tail)
  {
    FieldsOfJoin(g, "\n" + tail);
    assert ("\n" + tail)[1..] == tail;
  }

  lemma JoinLinesSplits(groups: seq<seq<Word>>)
    requires |groups| >= 2
    ensures JoinLines(Lines(groups)) == JoinWords(groups[0]) + ("\n" + JoinLines(Lines(groups[1..])))
  {
    var lines := Lines(groups);
    assert lines[1..] == Lines(groups[1..]) && lines[0] == JoinWords(groups[0]);
  }

  lemma {:induction false} WordsOfGroups(groups: seq<seq<Word>>, g: seq<Word>, w: Word)
    requires g in groups && w in g
    ensures w in Flatten(groups)
  {
    if groups[0] != g {
      WordsOfGroups(groups[1..], g, w);
    }
  }

  /** Wrapping any text with at least one word: the lines read back are the text's words in order,
    * no line of two or more words is wider than the width, and no way of breaking those words
    * under that rule uses fewer lines. */
  lemma WrapIsBest(text: string, width: int)
    requires Fields(text) != []
    ensures var groups := WrapGroups(text, width);
      && Breaks(groups, Fields(text), width)
      && Fields(JoinLines(Lines(groups))) == Fields(text)
      && forall rival | Breaks(rival, Fields(text), width) :: |Lines(groups)| <= |rival|
  {
    var words := Fields(text);
    var groups := WrapGroups(text, width);
    FieldsAreWords(text);
    GreedyBreaks([words[0]], words[1..], width);
    assert [words[0]] + words[1..] == words;
    forall g | g in groups
      ensures g != [] && forall w | w in g :: IsWord(w)
    {
      forall w | w in g
        ensures IsWord(w)
      {
        WordsOfGroups(groups, g, w);
      }
    }
    FieldsOfLines(groups);
    forall rival | Breaks(rival, words, width)
      ensures |groups| <= |rival|
    {
      StaysAhead(words, width, rival, 0);
      assert words[0..] == words;
    }
  }
}
