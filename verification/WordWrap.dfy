/** Greedy word wrap of the briefing screen (src/client/briefingscreen.cpp).

    `Wrap` is the character loop.  It is proved against `Greedy`, the same policy
    stated on whole words, and `Greedy` is proved to keep the words, to respect the
    width and to use as few lines as any other layout. */
module WordWrap {

  /** The words of `s` when `word` has already been collected: the maximal runs of
      non-blank characters. */
  function WordsAfter(word: string, s: string): (ws: seq<string>)
    ensures ' ' !in word ==> forall w :: w in ws ==> IsWord(w)
    decreases |s|
  {
    if s == "" then Flush(word)
    else if s[0] == ' ' then Flush(word) + WordsAfter("", s[1..])
    else WordsAfter(word + [s[0]], s[1..])
  }

  function Words(s: string): seq<string> { WordsAfter("", s) }

  function Flush(word: string): seq<string> { if word == "" then [] else [word] }

  predicate IsWord(w: string) { w != "" && ' ' !in w }

  predicate AllWords(ws: seq<string>) { forall w :: w in ws ==> IsWord(w) }

  /** A line of words, separated by single blanks. */
  function Join(line: seq<string>): string
  {
    if line == [] then ""
    else if |line| == 1 then line[0]
    else Join(line[..|line| - 1]) + " " + line[|line| - 1]
  }

  function JoinAll(lines: seq<seq<string>>): (r: seq<string>)
    ensures |r| == |lines|
    ensures forall i :: 0 <= i < |lines| ==> r[i] == Join(lines[i])
  {
    seq(|lines|, i requires 0 <= i < |lines| => Join(lines[i]))
  }

  function Flatten(lines: seq<seq<string>>): seq<string>
  {
    if lines == [] then [] else Flatten(lines[..|lines| - 1]) + lines[|lines| - 1]
  }

  /** A line may stand when it fits, or when it is a single (possibly oversized) word. */
  predicate LineOk(line: seq<string>, maxChars: int)
  {
    line != [] && (|line| == 1 || |Join(line)| <= maxChars)
  }

  /** Any order-preserving division of `words` into lines that may stand. */
  ghost predicate IsLayout(lines: seq<seq<string>>, words: seq<string>, maxChars: int)
  {
    Flatten(lines) == words && forall i :: 0 <= i < |lines| ==> LineOk(lines[i], maxChars)
  }

  /** The greedy policy on words. */
  function Greedy(words: seq<string>, maxChars: int): (lines: seq<seq<string>>)
    ensures words != [] ==> lines != []
  {
    if words == [] then []
    else Place(Greedy(words[..|words| - 1], maxChars), words[|words| - 1], maxChars)
  }

  function Place(lines: seq<seq<string>>, word: string, maxChars: int): (r: seq<seq<string>>)
    ensures r != []
  {
    if lines == [] then [[word]]
    else
      var last := lines[|lines| - 1];
      if |Join(last)| + 1 + |word| <= maxChars
      then lines[..|lines| - 1] + [last + [word]]
      else lines + [[word]]
  }

  // --- The text of a line is its words ------------------------------------------

  lemma {:induction false} WordsAfterClean(word: string, w: string, rest: string)
    requires ' ' !in w
    ensures WordsAfter(word, w + rest) == WordsAfter(word + w, rest)
    decreases |w|
  {
    if w == "" {
      assert w + rest == rest && word + w == word;
    } else {
      assert (w + rest)[0] == w[0] && (w + rest)[1..] == w[1..] + rest;
      WordsAfterClean(word + [w[0]], w[1..], rest);
      assert word + [w[0]] + w[1..] == word + w;
    }
  }

  /** A blank separates: tokenising distributes over it. */
  lemma {:induction false} WordsSplit(word: string, a: string, b: string)
    ensures WordsAfter(word, a + " " + b) == WordsAfter(word, a) + Words(b)
    decreases |a|
  {
    var t := a + " " + b;
    if a == "" {
      assert t[0] == ' ' && t[1..] == b;
    } else {
      assert t[0] == a[0] && t[1..] == a[1..] + " " + b;
      if a[0] == ' ' {
        WordsSplit("", a[1..], b);
        assert Flush(word) + (WordsAfter("", a[1..]) + Words(b)) == Flush(word) + WordsAfter("", a[1..]) + Words(b);
      } else {
        WordsSplit(word + [a[0]], a[1..], b);
      }
    }
  }

  lemma WordsOfWord(w: string)
    requires IsWord(w)
    ensures Words(w) == [w]
  {
    WordsAfterClean("", w, "");
    assert w + "" == w && "" + w == w;
  }

  /** Tokenising a rendered line gives back its words. */
  lemma {:induction false} WordsOfJoin(line: seq<string>)
    requires AllWords(line)
    ensures Words(Join(line)) == line
  {
    if |line| == 1 {
      WordsOfWord(line[0]);
      assert line == [line[0]];
    } else if |line| > 1 {
      var front, last := line[..|line| - 1], line[|line| - 1];
      assert line == front + [last];
      WordsOfJoin(front);
      WordsOfWord(last);
      WordsSplit("", Join(front), last);
    }
  }

  // --- What the greedy layout keeps -----------------------------------------------

  /** No word is lost, invented or moved. */
  lemma {:induction false} GreedyKeepsWords(words: seq<string>, maxChars: int)
    ensures Flatten(Greedy(words, maxChars)) == words
  {
    if words != [] {
      var front, w := words[..|words| - 1], words[|words| - 1];
      GreedyKeepsWords(front, maxChars);
      var g := Greedy(front, maxChars);
      var h := Place(g, w, maxChars);
      assert words == front + [w];
      if g == [] {
        assert h[..0] == [];
      } else if |h| == |g| {
        assert h[..|h| - 1] == g[..|g| - 1];
      } else {
        assert h[..|h| - 1] == g;
      }
    }
  }

  /** Every line fits the width unless it is one oversized word. */
  lemma {:induction false} GreedyLinesFit(words: seq<string>, maxChars: int)
    ensures forall i :: 0 <= i < |Greedy(words, maxChars)| ==> LineOk(Greedy(words, maxChars)[i], maxChars)
  {
    if words != [] {
      var front, w := words[..|words| - 1], words[|words| - 1];
      GreedyLinesFit(front, maxChars);
      var g := Greedy(front, maxChars);
      if g != [] {
        JoinSnoc(g[|g| - 1], w);
      }
    }
  }

  lemma JoinSnoc(line: seq<string>, w: string)
    requires line != []
    ensures Join(line + [w]) == Join(line) + " " + w
  {
    assert (line + [w])[..|line|] == line;
  }

  /** A line is at least as wide as any of its non-empty tails. */
  lemma {:induction false} TailNoWider(head: seq<string>, tail: seq<string>)
    requires tail != []
    ensures |Join(tail)| <= |Join(head + tail)|
    decreases |tail|
  {
    var front, w := tail[..|tail| - 1], tail[|tail| - 1];
    assert tail == front + [w];
    assert head + tail == (head + front) + [w];
    if front == [] {
      if head + front != [] { JoinSnoc(head + front, w); }
    } else {
      TailNoWider(head, front);
      JoinSnoc(head + front, w);
      JoinSnoc(front, w);
    }
  }

  /** The stay-ahead argument: no layout of the same words has fewer lines, and one
      with as many lines has at least as many words on its last line. */
  lemma {:induction false} GreedyStaysAhead(words: seq<string>, maxChars: int, lines: seq<seq<string>>)
    requires IsLayout(lines, words, maxChars)
    ensures |Greedy(words, maxChars)| <= |lines|
    ensures words != [] && |Greedy(words, maxChars)| == |lines| ==>
              |Greedy(words, maxChars)[|lines| - 1]| <= |lines[|lines| - 1]|
    decreases |words|
  {
    if words == [] { return; }
    var front, w := words[..|words| - 1], words[|words| - 1];
    var rest, cut := LastWordTaken(words, maxChars, lines);
    if cut == [] {
      GreedyStaysAhead(front, maxChars, rest);
    } else {
      GreedyStaysAhead(front, maxChars, rest + [cut]);
      if |Greedy(front, maxChars)| == |lines| {
        LastLinesAgree(front, maxChars, rest, cut, w);
      }
    }
  }

  /** Taking the last word out of a layout leaves a layout of the words before it. */
  lemma LastWordTaken(words: seq<string>, maxChars: int, lines: seq<seq<string>>)
    returns (rest: seq<seq<string>>, cut: seq<string>)
    requires IsLayout(lines, words, maxChars) && words != []
    ensures var front, w := words[..|words| - 1], words[|words| - 1];
            && lines == rest + [cut + [w]] && front == Flatten(rest) + cut
            && (cut == [] ==> IsLayout(rest, front, maxChars))
            && (cut != [] ==> IsLayout(rest + [cut], front, maxChars) && |Join(cut + [w])| <= maxChars)
  {
    var front, w := words[..|words| - 1], words[|words| - 1];
    assert lines != [];
    var last := lines[|lines| - 1];
    rest, cut := lines[..|lines| - 1], last[..|last| - 1];
    assert words == Flatten(rest) + last;
    assert last[|last| - 1] == w;
    assert last == cut + [w];
    assert front == Flatten(rest) + cut;
    if cut != [] {
      JoinSnoc(cut, w);
      assert (rest + [cut])[..|rest|] == rest;
    }
  }

  /** Greedy's last line is a tail of the other layout's last line, so when `w` still
      fits there it fits greedy's last line too. */
  lemma LastLinesAgree(front: seq<string>, maxChars: int, rest: seq<seq<string>>, cut: seq<string>, w: string)
    requires front == Flatten(rest) + cut && cut != []
    requires |Join(cut + [w])| <= maxChars
    requires var g := Greedy(front, maxChars); |g| == |rest| + 1 && 0 < |g[|g| - 1]| <= |cut|
    ensures var g := Greedy(front, maxChars); |Join(g[|g| - 1])| + 1 + |w| <= maxChars
  {
    var g := Greedy(front, maxChars);
    var mine := g[|g| - 1];
    GreedyKeepsWords(front, maxChars);
    assert front == Flatten(g[..|g| - 1]) + mine;
    var k := |cut| - |mine|;
    assert mine == front[|front| - |mine|..] == cut[k..];
    assert cut + [w] == cut[..k] + (mine + [w]);
    TailNoWider(cut[..k], mine + [w]);
    JoinSnoc(mine, w);
  }

  /** The greedy layout is a layout, and none is shorter. */
  lemma GreedyOptimal(words: seq<string>, maxChars: int)
    ensures IsLayout(Greedy(words, maxChars), words, maxChars)
    ensures forall lines :: IsLayout(lines, words, maxChars) ==> |Greedy(words, maxChars)| <= |lines|
  {
    GreedyKeepsWords(words, maxChars);
    GreedyLinesFit(words, maxChars);
    forall lines | IsLayout(lines, words, maxChars) ensures |Greedy(words, maxChars)| <= |lines| {
      GreedyStaysAhead(words, maxChars, lines);
    }
  }

  // --- The character loop ------------------------------------------------------------

  /** The local lambda `push`: move the collected word, if any, onto the page. */
  method Push(lines: seq<string>, line: string, word: string, maxChars: int, ghost page: seq<seq<string>>)
    returns (lines': seq<string>, line': string, ghost page': seq<seq<string>>)
    requires Holds(lines, line, page) && ' ' !in word
    ensures Holds(lines', line', page')
    ensures page' == if word == "" then page else Place(page, word, maxChars)
  {
    lines', line', page' := lines, line, page;
    if word == "" { return; }
    page' := Place(page, word, maxChars);
    if line == "" {
      line' := word;
    } else if |line| + 1 + |word| <= maxChars {
      JoinSnoc(page[|page| - 1], word);
      line' := line + " " + word;
    } else {
      lines', line' := lines + [line], word;
      assert page'[..|page'| - 1] == page;
    }
  }

  /** The finished lines and the line under construction render `page`. */
  ghost predicate Holds(lines: seq<string>, line: string, page: seq<seq<string>>)
  {
    && (line == "" <==> page == [])
    && (page == [] ==> lines == [])
    && (page != [] ==> lines == JoinAll(page[..|page| - 1]) && line == Join(page[|page| - 1]))
  }

  method Wrap(s: string, maxChars: int) returns (lines: seq<string>)
    ensures lines == if Words(s) == [] then [""] else JoinAll(Greedy(Words(s), maxChars))
  {
    lines := [];
    var line, word := "", "";
    ghost var page := [];
    ghost var seen := [];
    for i := 0 to |s|
      invariant ' ' !in word
      invariant Holds(lines, line, page)
      invariant page == Greedy(seen, maxChars)
      invariant seen + WordsAfter(word, s[i..]) == Words(s)
    {
      if s[i] == ' ' {
        FlushStep(seen, word, s, i);
        GreedySnoc(seen, word, maxChars);
        lines, line, page := Push(lines, line, word, maxChars, page);
        seen, word := seen + Flush(word), "";
      } else {
        word := word + [s[i]];
      }
    }
    GreedySnoc(seen, word, maxChars);
    lines, line, page := Push(lines, line, word, maxChars, page);
    Finish(lines, line, page);
    if line != "" {
      lines := lines + [line];
    }
    if lines == [] { lines := [""]; }
  }

  lemma FlushStep(seen: seq<string>, word: string, s: string, i: nat)
    requires i < |s| && s[i] == ' '
    ensures seen + WordsAfter(word, s[i..]) == seen + Flush(word) + WordsAfter("", s[i + 1..])
  {
    assert s[i..][0] == s[i] && s[i..][1..] == s[i + 1..];
  }

  /** Appending the line under construction completes the page. */
  lemma Finish(lines: seq<string>, line: string, page: seq<seq<string>>)
    requires Holds(lines, line, page)
    ensures (if line != "" then lines + [line] else lines) == JoinAll(page)
  {
  }

  lemma GreedySnoc(seen: seq<string>, word: string, maxChars: int)
    ensures Greedy(seen + Flush(word), maxChars) ==
            if word == "" then Greedy(seen, maxChars) else Place(Greedy(seen, maxChars), word, maxChars)
  {
    if word == "" {
      assert seen + [] == seen;
    } else {
      assert (seen + [word])[..|seen|] == seen;
    }
  }

  /** What the reader of the screen sees: tokenising the produced lines one after the
      other gives exactly the words of the text. */
  /** The text without its blanks. */
  function Letters(s: string): string
  {
    if s == "" then "" else (if s[0] == ' ' then "" else [s[0]]) + Letters(s[1..])
  }

  function Glued(words: seq<string>): string { if words == [] then "" else words[0] + Glued(words[1..]) }

  lemma {:induction false} LettersAfter(word: string, s: string)
    ensures Glued(WordsAfter(word, s)) == word + Letters(s)
    decreases |s|
  {
    if s == "" {
      assert word + "" == word;
    } else if s[0] == ' ' {
      LettersAfter("", s[1..]);
      var rest := WordsAfter("", s[1..]);
      assert Flush(word) + rest == if word == "" then rest else [word] + rest;
      assert ([word] + rest)[1..] == rest;
      assert "" + Letters(s[1..]) == Letters(s);
    } else {
      LettersAfter(word + [s[0]], s[1..]);
      assert word + [s[0]] + Letters(s[1..]) == word + Letters(s);
    }
  }

  /** No character of the text is lost or added but blanks, and their order stays. */
  lemma LettersKept(s: string)
    ensures Glued(Words(s)) == Letters(s)
  {
    LettersAfter("", s);
    assert "" + Letters(s) == Letters(s);
  }

  lemma WrapRoundTrip(s: string, maxChars: int)
    ensures var lines := JoinAll(Greedy(Words(s), maxChars));
            Flatten(seq(|lines|, i requires 0 <= i < |lines| => Words(lines[i]))) == Words(s)
  {
    var g := Greedy(Words(s), maxChars);
    GreedyKeepsWords(Words(s), maxChars);
    var lines := JoinAll(g);
    forall i | 0 <= i < |g| ensures Words(lines[i]) == g[i] {
      FlattenHas(g, i);
      WordsOfJoin(g[i]);
    }
    assert seq(|lines|, i requires 0 <= i < |lines| => Words(lines[i])) == g;
  }

  lemma {:induction false} FlattenHas(lines: seq<seq<string>>, i: nat)
    requires i < |lines|
    ensures forall w :: w in lines[i] ==> w in Flatten(lines)
  {
    if i < |lines| - 1 { FlattenHas(lines[..|lines| - 1], i); }
  }
}
