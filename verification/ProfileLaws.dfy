/** What single lines of a profile file come to, read off the text (src/ai/ai.cpp). */
module ProfileLaws {
  import opened Basics
  import opened Decimals
  import opened Profile
  import Planner

  // --- Words and comments ---------------------------------------------------------------------------

  /** A word: some characters, none of them a blank or a control character that counts as one. */
  predicate Word(s: string) { s != "" && forall i :: 0 <= i < |s| ==> s[i] as int != 32 && !(9 <= s[i] as int <= 13) }

  predicate NoSlashes(s: string) { forall i :: 0 <= i < |s| - 1 ==> !(s[i] == '/' && s[i + 1] == '/') }

  predicate NoBreak(s: string) { forall i :: 0 <= i < |s| ==> s[i] as int != 10 }

  /** Without two slashes in a row nothing is cut off. */
  lemma {:induction false} KeptWhole(s: string)
    requires NoSlashes(s)
    ensures Uncommented(s) == s
    decreases |s|
  {
    if s != "" {
      assert |s| >= 2 ==> !(s[0] == '/' && s[1] == '/');
      forall i | 0 <= i < |s[1..]| - 1 ensures !(s[1..][i] == '/' && s[1..][i + 1] == '/') {
        assert !(s[i + 1] == '/' && s[i + 2] == '/');
      }
      KeptWhole(s[1..]);
      assert [s[0]] + s[1..] == s;
    }
  }

  /** Whatever follows the first two slashes does not matter. */
  lemma {:induction false} CommentCut(s: string, t: string)
    requires NoSlashes(s) && (s == "" || s[|s| - 1] != '/')
    ensures Uncommented(s + "//" + t) == s
    decreases |s|
  {
    var all := s + "//" + t;
    if s == "" {
      assert all[0] == '/' && all[1] == '/';
    } else {
      assert all[0] == s[0] && all[1..] == s[1..] + "//" + t;
      assert !(all[0] == '/' && all[1] == '/');
      forall i | 0 <= i < |s[1..]| - 1 ensures !(s[1..][i] == '/' && s[1..][i + 1] == '/') {
        assert !(s[i + 1] == '/' && s[i + 2] == '/');
      }
      CommentCut(s[1..], t);
    }
  }

  /** A word at the end. */
  lemma {:induction false} LastWord(word: string, s: string)
    requires forall i :: 0 <= i < |s| ==> s[i] as int != 32 && !(9 <= s[i] as int <= 13)
    ensures WordsAfter(word, s) == if word + s == "" then [] else [word + s]
    decreases |s|
  {
    if s == "" {
      assert word + s == word;
    } else {
      LastWord(word + [s[0]], s[1..]);
      assert word + [s[0]] + s[1..] == word + s;
    }
  }

  /** A word ends at a blank. */
  lemma {:induction false} WordEnds(word: string, s: string, c: char, rest: string)
    requires forall i :: 0 <= i < |s| ==> s[i] as int != 32 && !(9 <= s[i] as int <= 13)
    requires c as int == 32 || 9 <= c as int <= 13
    ensures WordsAfter(word, s + [c] + rest) == (if word + s == "" then [] else [word + s]) + WordsAfter("", rest)
    decreases |s|
  {
    var all := s + [c] + rest;
    if s == "" {
      assert all[0] == c && all[1..] == rest && word + s == word;
    } else {
      assert all[0] == s[0] && all[1..] == s[1..] + [c] + rest;
      WordEnds(word + [s[0]], s[1..], c, rest);
      assert word + [s[0]] + s[1..] == word + s;
    }
  }

  /** Two or three words with a blank between them, and perhaps a comment. */
  lemma TwoWords(a: string, b: string)
    requires Word(a) && Word(b)
    ensures WordsAfter("", a + [' '] + b) == [a, b]
  {
    WordEnds("", a, ' ', b);
    LastWord("", b);
    assert "" + a == a && "" + b == b;
  }

  lemma ThreeWords(a: string, b: string, c: string)
    requires Word(a) && Word(b) && Word(c)
    ensures WordsAfter("", a + [' '] + (b + [' '] + c)) == [a, b, c]
  {
    WordEnds("", a, ' ', b + [' '] + c);
    TwoWords(b, c);
    assert "" + a == a;
  }

  lemma BlankBetween(a: string, b: string)
    requires NoSlashes(a) && NoSlashes(b)
    ensures NoSlashes(a + [' '] + b)
  {
    var all := a + [' '] + b;
    forall i | 0 <= i < |all| - 1 ensures !(all[i] == '/' && all[i + 1] == '/') {
      if i + 1 < |a| {
        assert !(a[i] == '/' && a[i + 1] == '/');
      } else if i > |a| {
        assert !(b[i - |a| - 1] == '/' && b[i - |a|] == '/');
      }
    }
  }

  // --- Lines ----------------------------------------------------------------------------------------

  /** A text without a line break is one line; a break ends a line. */
  lemma {:induction false} OneLine(line: string, s: string)
    requires NoBreak(s)
    ensures LinesAfter(line, s) == [line + s]
    decreases |s|
  {
    if s == "" {
      assert line + s == line;
    } else {
      OneLine(line + [s[0]], s[1..]);
      assert line + [s[0]] + s[1..] == line + s;
    }
  }

  lemma {:induction false} LineEnds(line: string, s: string, rest: string)
    requires NoBreak(s)
    ensures LinesAfter(line, s + ['\n'] + rest) == [line + s] + LinesAfter("", rest)
    decreases |s|
  {
    var all := s + ['\n'] + rest;
    if s == "" {
      assert all[0] == '\n' && all[1..] == rest && line + s == line;
    } else {
      assert all[0] == s[0] && all[1..] == s[1..] + ['\n'] + rest;
      LineEnds(line + [s[0]], s[1..], rest);
      assert line + [s[0]] + s[1..] == line + s;
    }
  }

  /** Upper-case letters count as the lower-case ones in the same place of the alphabet. */
  lemma LowerCase(c: char)
    ensures LowerChar(c) == if 65 <= c as int <= 90 then "abcdefghijklmnopqrstuvwxyz"[c as int - 65] else c
  {
  }

  // --- What a line says ------------------------------------------------------------------------------

  /** A numeral is a word without slashes. */
  lemma NumeralIsWord(n: Numeral)
    requires n.Valid()
    ensures Word(n.Text()) && NoSlashes(n.Text()) && NoBreak(n.Text())
  {
    var s := n.Text();
    forall i | 0 <= i < |s| ensures s[i] as int > 32 && s[i] != '/' {
      if i >= |n.sign| + |n.whole| && n.point && i > |n.sign| + |n.whole| {
        assert s[i] == n.frac[i - |n.sign| - |n.whole| - 1];
      } else if |n.sign| <= i < |n.sign| + |n.whole| {
        assert s[i] == n.whole[i - |n.sign|];
      }
    }
  }

  /** A line that sets the entry of `key`. */
  function Setting(kw: string, key: string, n: Numeral): string { kw + [' '] + (key + [' '] + n.Text()) }

  /** What it asks for: a weight in hundredths, a limit in whole units. */
  lemma SettingIs(kw: string, key: string, n: Numeral)
    requires Word(kw) && Word(key) && NoSlashes(kw) && NoSlashes(key) && n.Valid()
    ensures Lower(kw) == "weight" ==> DirectiveOf(Setting(kw, key, n)) == Assign(Weight, Lower(key), n.Value())
    ensures Lower(kw) == "limit" ==>
              DirectiveOf(Setting(kw, key, n)) == Assign(Limit, Lower(key), TruncDiv(n.Value(), 100))
  {
    NumeralIsWord(n);
    BlankBetween(key, n.Text());
    BlankBetween(kw, key + [' '] + n.Text());
    KeptWhole(Setting(kw, key, n));
    ThreeWords(kw, key, n.Text());
    ReadComplete(n);
  }

  /** A whole limit below ten million is the number written, a fraction is dropped. */
  lemma LimitIsWhole(n: Numeral)
    requires n.Valid() && Decimal(n.whole) < 10_000_000
    ensures TruncDiv(n.Value(), 100) == if n.sign == "-" then 0 - Decimal(n.whole) else Decimal(n.whole)
  {
    WholeExact(n.whole);
  }

  /** A line that narrows what follows to one plan. */
  lemma PlanLine(kw: string, name: string)
    requires Word(kw) && Word(name) && NoSlashes(kw) && NoSlashes(name) && Lower(kw) == "plan"
    ensures var d := DirectiveOf(kw + [' '] + name);
            && (Lower(name) == "easy" ==> d == Select(Easy)) && (Lower(name) == "medium" ==> d == Select(Medium))
            && (Lower(name) == "hard" ==> d == Select(Hard)) && !d.Assign?
  {
    BlankBetween(kw, name);
    KeptWhole(kw + [' '] + name);
    TwoWords(kw, name);
  }

  // --- Whole files -------------------------------------------------------------------------------------

  /** The only directive of a file decides all entries. */
  lemma OnlyEntry(prof: Profile, ds: seq<Directive>, i: nat, p: PlanId)
    requires Agrees(prof, ds) && i < |ds| && ds[i].Assign? && forall j :: 0 <= j < |ds| && j != i ==> !ds[j].Assign?
    ensures var d, plan := ds[i], prof.Get(p);
            if !SpeaksFor(ds, i, p) then plan == Plan(map[], map[])
            else if d.kind == Weight then plan == Plan(map[d.key := d.value], map[])
            else plan == Plan(map[], map[d.key := d.value])
  {
    var d, plan := ds[i], prof.Get(p);
    forall kind: Kind, key: string
      ensures plan.Entry(kind, key) ==
              if SpeaksFor(ds, i, p) && kind == d.kind && key == d.key then Some(d.value) else None
    {
      assert Means(ds, p, kind, key, plan.Entry(kind, key));
      assert Mentions(ds, i, p, kind, key) <==> SpeaksFor(ds, i, p) && kind == d.kind && key == d.key;
    }
    assert forall key :: key in plan.weight <==> plan.Entry(Weight, key).Some?;
    assert forall key :: key in plan.limit <==> plan.Entry(Limit, key).Some?;
    assert forall key :: key in plan.weight ==> plan.Entry(Weight, key) == Some(plan.weight[key]);
    assert forall key :: key in plan.limit ==> plan.Entry(Limit, key) == Some(plan.limit[key]);
  }

  /** A file of one `weight` line sets that weight, in hundredths, for every difficulty, and
      nothing else. */
  lemma OneWeight(prof: Profile, kw: string, key: string, n: Numeral, d: Planner.Difficulty)
    requires Word(kw) && Word(key) && NoSlashes(kw) && NoSlashes(key) && n.Valid() && Lower(kw) == "weight"
    requires Agrees(prof, Directives(Lines(Setting(kw, key, n))))
    requires Decimal(n.whole) < 10_000_000
    ensures var plan := Planner.ForDifficulty(prof, d);
            plan.limit == map[] && plan.weight.Keys == {Lower(key)} && InHundredths(n, plan.weight[Lower(key)])
  {
    LineAlone(kw, key, n);
    SettingIs(kw, key, n);
    ValueMeans(n);
    var ds := Directives(Lines(Setting(kw, key, n)));
    forall p: PlanId ensures prof.Get(p) == Plan(map[Lower(key) := n.Value()], map[]) { OnlyEntry(prof, ds, 0, p); }
    assert Planner.ForDifficulty(prof, d) in {prof.Get(Easy), prof.Get(Medium), prof.Get(Hard)};
  }

  lemma LineAlone(kw: string, key: string, n: Numeral)
    requires Word(kw) && Word(key) && n.Valid()
    ensures NoBreak(Setting(kw, key, n)) && Lines(Setting(kw, key, n)) == [Setting(kw, key, n)]
  {
    NumeralIsWord(n);
    OneLine("", Setting(kw, key, n));
    assert "" + Setting(kw, key, n) == Setting(kw, key, n);
  }

  /** A file of one `limit` line sets that limit, a whole number of units. */
  lemma OneLimit(prof: Profile, kw: string, key: string, n: Numeral, d: Planner.Difficulty)
    requires Word(kw) && Word(key) && NoSlashes(kw) && NoSlashes(key) && n.Valid() && Lower(kw) == "limit"
    requires Agrees(prof, Directives(Lines(Setting(kw, key, n))))
    requires Decimal(n.whole) < 10_000_000
    ensures Planner.ForDifficulty(prof, d) ==
            Plan(map[], map[Lower(key) := if n.sign == "-" then 0 - Decimal(n.whole) else Decimal(n.whole)])
  {
    LineAlone(kw, key, n);
    SettingIs(kw, key, n);
    LimitIsWhole(n);
    var ds := Directives(Lines(Setting(kw, key, n)));
    forall p: PlanId ensures prof.Get(p) == Plan(map[], map[Lower(key) := TruncDiv(n.Value(), 100)]) {
      OnlyEntry(prof, ds, 0, p);
    }
    assert Planner.ForDifficulty(prof, d) in {prof.Get(Easy), prof.Get(Medium), prof.Get(Hard)};
  }

  /** The difficulties that a plan of the file stands for. */
  predicate Named(name: string, d: Planner.Difficulty)
  {
    match d
    case Passive => name == "easy"
    case Easier => name == "easy"
    case Normal => name == "medium"
    case Harder => name == "hard"
    case Absurd => name == "hard"
  }

  /** After a plan line only the difficulties of that plan get the weight. */
  lemma WeightInPlan(prof: Profile, pw: string, name: string, kw: string, key: string, n: Numeral,
                     d: Planner.Difficulty)
    requires Word(pw) && Word(name) && NoSlashes(pw) && NoSlashes(name) && Lower(pw) == "plan"
    requires Lower(name) == "easy" || Lower(name) == "medium" || Lower(name) == "hard"
    requires Word(kw) && Word(key) && NoSlashes(kw) && NoSlashes(key) && n.Valid() && Lower(kw) == "weight"
    requires Agrees(prof, Directives(Lines(pw + [' '] + name + ['\n'] + Setting(kw, key, n))))
    ensures Planner.ForDifficulty(prof, d) ==
            if Named(Lower(name), d) then Plan(map[Lower(key) := n.Value()], map[]) else Plan(map[], map[])
  {
    var first, second := pw + [' '] + name, Setting(kw, key, n);
    LineAlone(kw, key, n);
    LineEnds("", first, second);
    assert "" + first == first;
    assert Lines(first + ['\n'] + second) == [first, second];
    PlanLine(pw, name);
    SettingIs(kw, key, n);
    var ds := Directives([first, second]);
    forall p: PlanId
      ensures prof.Get(p) ==
              if ds[0] == Select(p) then Plan(map[Lower(key) := n.Value()], map[]) else Plan(map[], map[])
    {
      assert SpeaksFor(ds, 1, p) <==> ds[0] == Select(p);
      OnlyEntry(prof, ds, 1, p);
    }
    assert prof.Get(Easy) == prof.easy && prof.Get(Medium) == prof.medium && prof.Get(Hard) == prof.hard;
    assert ds[0] == Select(Easy) <==> Lower(name) == "easy";
    assert ds[0] == Select(Medium) <==> Lower(name) == "medium";
    assert ds[0] == Select(Hard) <==> Lower(name) == "hard";
  }
}
