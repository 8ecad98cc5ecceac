/** The build profiles of the skirmish AI (src/ai/ai.cpp, src/ai/ai.h). */
module Profile {
  import opened Basics
  import opened Decimals

  // --- Lines and words --------------------------------------------------------------------

  function LowerChar(c: char): char
  {
    if 'A' <= c <= 'Z' then (c as int - 'A' as int + 'a' as int) as char else c
  }

  function Lower(s: string): string { seq(|s|, i requires 0 <= i < |s| => LowerChar(s[i])) }

  predicate Blank(c: char) { c == ' ' || '\t' <= c <= '\r' }

  /** The blank-separated words after `word` has been collected. */
  function WordsAfter(word: string, s: string): seq<string>
    decreases |s|
  {
    if s == "" then (if word == "" then [] else [word])
    else if Blank(s[0]) then (if word == "" then [] else [word]) + WordsAfter("", s[1..])
    else WordsAfter(word + [s[0]], s[1..])
  }

  /** The text before the first comment mark. */
  function Uncommented(s: string): string
  {
    if |s| >= 2 && s[0] == '/' && s[1] == '/' then "" else if s == "" then "" else [s[0]] + Uncommented(s[1..])
  }

  /** The lines of a text. */
  function LinesAfter(line: string, s: string): seq<string>
    decreases |s|
  {
    if s == "" then [line] else if s[0] == '\n' then [line] + LinesAfter("", s[1..])
        else LinesAfter(line + [s[0]], s[1..])
  }

  function Lines(s: string): seq<string> { LinesAfter("", s) }

  function WordsOf(line: string): seq<string> { WordsAfter("", Uncommented(line)) }

  // --- Directives -----------------------------------------------------------------------------

  datatype PlanId = Easy | Medium | Hard

  datatype Kind = Weight | Limit

  /** What one line of a profile asks for. */
  datatype Directive = Nothing | Select(plan: PlanId) | Assign(kind: Kind, key: string, value: int)

  function PlanNamed(s: string): Option<PlanId>
  {
    if s == "easy" then Some(Easy) else if s == "medium" then Some(Medium) else if s == "hard" then Some(Hard) else None
  }

  function DirectiveOf(line: string): Directive
  {
    var ws := WordsOf(line);
    if ws == [] then Nothing
    else
      var kw := Lower(ws[0]);
      if kw == "plan" then
        if |ws| < 2 then Nothing
        else match PlanNamed(Lower(ws[1])) case Some(p) => Select(p) case None => Nothing
      else if kw != "weight" && kw != "limit" then Nothing
      else if |ws| < 3 then Nothing
      else
        match ValueOf(ws[2])
        case None => Nothing
        case Some(v) =>
          if kw == "weight" then Assign(Weight, Lower(ws[1]), v) else Assign(Limit, Lower(ws[1]), TruncDiv(v, 100))
  }

  // --- What a profile file means ----------------------------------------------------------------

  function Directives(lines: seq<string>): (ds: seq<Directive>)
    ensures |ds| == |lines|
  {
    seq(|lines|, i requires 0 <= i < |lines| => DirectiveOf(lines[i]))
  }

  /** Directive `i` speaks for plan `p`: no plan was selected before it, or `p` was last. */
  ghost predicate SpeaksFor(ds: seq<Directive>, i: nat, p: PlanId)
    requires i <= |ds|
  {
    || (forall j :: 0 <= j < i ==> !ds[j].Select?)
    || (exists j :: 0 <= j < i && ds[j] == Select(p) && forall k :: j < k < i ==> !ds[k].Select?)
  }

  ghost predicate Mentions(ds: seq<Directive>, i: nat, p: PlanId, kind: Kind, key: string)
    requires i < |ds|
  {
    ds[i].Assign? && ds[i].kind == kind && ds[i].key == key && SpeaksFor(ds, i, p)
  }

  /** The value of an entry: that of the last directive that speaks for the plan and sets it. */
  ghost predicate Means(ds: seq<Directive>, p: PlanId, kind: Kind, key: string, entry: Option<int>)
  {
    match entry
    case None => forall i :: 0 <= i < |ds| ==> !Mentions(ds, i, p, kind, key)
    case Some(v) =>
      exists i :: 0 <= i < |ds| && Mentions(ds, i, p, kind, key) && ds[i].value == v &&
                  forall j :: i < j < |ds| ==> !Mentions(ds, j, p, kind, key)
  }

  /** That value is unique: the meaning of a file determines the profile. */
  lemma MeaningUnique(ds: seq<Directive>, p: PlanId, kind: Kind, key: string, a: Option<int>, b: Option<int>)
    requires Means(ds, p, kind, key, a) && Means(ds, p, kind, key, b)
    ensures a == b
  {
    if a.Some? && b.Some? {
      var i :| 0 <= i < |ds| && Mentions(ds, i, p, kind, key) && ds[i].value == a.value &&
               forall j :: i < j < |ds| ==> !Mentions(ds, j, p, kind, key);
      var k :| 0 <= k < |ds| && Mentions(ds, k, p, kind, key) && ds[k].value == b.value &&
               forall j :: k < j < |ds| ==> !Mentions(ds, j, p, kind, key);
      assert i == k;
    }
  }

  // --- The parser -----------------------------------------------------------------------------------

  datatype Plan = Plan(weight: map<string, int>, limit: map<string, int>)
  {
    function Entry(kind: Kind, key: string): Option<int>
    {
      var m := if kind == Weight then weight else limit;
      if key in m then Some(m[key]) else None
    }

    function Set(kind: Kind, key: string, v: int): Plan
    {
      if kind == Weight then this.(weight := weight[key := v]) else this.(limit := limit[key := v])
    }
  }

  const NO_PLAN := Plan(map[], map[])

  datatype Profile = Profile(easy: Plan, medium: Plan, hard: Plan)
  {
    function Get(p: PlanId): Plan { match p case Easy => easy case Medium => medium case Hard => hard }

    function With(p: PlanId, plan: Plan): Profile
    {
      match p case Easy => this.(easy := plan) case Medium => this.(medium := plan) case Hard => this.(hard := plan)
    }
  }

  /** The profile means what the directives say, for every plan and entry. */
  ghost predicate Agrees(prof: Profile, ds: seq<Directive>)
  {
    forall p: PlanId, kind: Kind, key: string :: Means(ds, p, kind, key, prof.Get(p).Entry(kind, key))
  }

  /** The plans that the next directive will speak for. */
  ghost predicate Targets(ds: seq<Directive>, targets: seq<PlanId>)
  {
    forall p: PlanId :: p in targets <==> SpeaksFor(ds, |ds|, p)
  }

  lemma SpeaksForPrefix(ds: seq<Directive>, d: Directive, i: nat, p: PlanId)
    requires i <= |ds|
    ensures SpeaksFor(ds + [d], i, p) <==> SpeaksFor(ds, i, p)
  {
    var all := ds + [d];
    assert all[..i] == ds[..i];
    SpeaksForTake(all, i, p);
    SpeaksForTake(ds, i, p);
  }

  lemma SpeaksForTake(ds: seq<Directive>, i: nat, p: PlanId)
    requires i <= |ds|
    ensures SpeaksFor(ds, i, p) <==> SpeaksFor(ds[..i], i, p)
  {
    var t := ds[..i];
    assert forall j :: 0 <= j < i ==> t[j] == ds[j];
    if exists j :: 0 <= j < i && ds[j] == Select(p) && forall k :: j < k < i ==> !ds[k].Select? {
      var j :| 0 <= j < i && ds[j] == Select(p) && forall k :: j < k < i ==> !ds[k].Select?;
      assert t[j] == Select(p) && forall k :: j < k < i ==> !t[k].Select?;
    }
    if exists j :: 0 <= j < i && t[j] == Select(p) && forall k :: j < k < i ==> !t[k].Select? {
      var j :| 0 <= j < i && t[j] == Select(p) && forall k :: j < k < i ==> !t[k].Select?;
      assert ds[j] == Select(p) && forall k :: j < k < i ==> !ds[k].Select?;
    }
  }

  lemma MentionsPrefix(ds: seq<Directive>, d: Directive, i: nat, p: PlanId, kind: Kind, key: string)
    requires i < |ds|
    ensures Mentions(ds + [d], i, p, kind, key) <==> Mentions(ds, i, p, kind, key)
  {
    SpeaksForPrefix(ds, d, i, p);
  }

  /** A directive that sets nothing for the plan changes nothing there. */
  lemma MeansStays(ds: seq<Directive>, d: Directive, p: PlanId, kind: Kind, key: string, entry: Option<int>)
    requires Means(ds, p, kind, key, entry) && !Mentions(ds + [d], |ds|, p, kind, key)
    ensures Means(ds + [d], p, kind, key, entry)
  {
    var all := ds + [d];
    forall i | 0 <= i < |ds| ensures Mentions(all, i, p, kind, key) <==> Mentions(ds, i, p, kind, key) {
      MentionsPrefix(ds, d, i, p, kind, key);
    }
    if entry.Some? {
      var i :| 0 <= i < |ds| && Mentions(ds, i, p, kind, key) && ds[i].value == entry.value &&
               forall j :: i < j < |ds| ==> !Mentions(ds, j, p, kind, key);
      assert Mentions(all, i, p, kind, key) && all[i].value == entry.value;
    }
  }

  /** A directive that sets an entry decides it. */
  lemma MeansSet(ds: seq<Directive>, d: Directive, p: PlanId, kind: Kind, key: string)
    requires Mentions(ds + [d], |ds|, p, kind, key)
    ensures Means(ds + [d], p, kind, key, Some(d.value))
  {
    var all := ds + [d];
    assert all[|ds|] == d;
  }

  /** The effect of a directive on the targeted plans. */
  ghost predicate Applied(prof: Profile, prof': Profile, d: Directive, targets: seq<PlanId>)
  {
    forall p: PlanId ::
      prof'.Get(p) == if d.Assign? && p in targets then prof.Get(p).Set(d.kind, d.key, d.value) else prof.Get(p)
  }

  /** After a directive is carried out for exactly the targets, the profile agrees with one
      directive more. */
  lemma LineRead(prof: Profile, prof': Profile, ds: seq<Directive>, d: Directive, targets: seq<PlanId>)
    requires Agrees(prof, ds) && Targets(ds, targets) && Applied(prof, prof', d, targets)
    ensures Agrees(prof', ds + [d])
  {
    forall p: PlanId, kind: Kind, key: string
      ensures Means(ds + [d], p, kind, key, prof'.Get(p).Entry(kind, key))
    {
      SpeaksForPrefix(ds, d, |ds|, p);
      assert Means(ds, p, kind, key, prof.Get(p).Entry(kind, key));
      if d.Assign? && p in targets && d.kind == kind && d.key == key {
        MeansSet(ds, d, p, kind, key);
      } else {
        MeansStays(ds, d, p, kind, key, prof.Get(p).Entry(kind, key));
      }
    }
  }

  /** How the targets move on. */
  lemma TargetsNext(ds: seq<Directive>, d: Directive, targets: seq<PlanId>)
    requires Targets(ds, targets)
    ensures Targets(ds + [d], if d.Select? then [d.plan] else targets)
  {
    var all, targets' := ds + [d], if d.Select? then [d.plan] else targets;
    forall p: PlanId ensures p in targets' <==> SpeaksFor(all, |all|, p) {
      NextSpeaks(ds, d, p);
      assert |all| == |ds| + 1;
    }
  }

  lemma NextSpeaks(ds: seq<Directive>, d: Directive, p: PlanId)
    ensures SpeaksFor(ds + [d], |ds| + 1, p) <==> if d.Select? then p == d.plan else SpeaksFor(ds, |ds|, p)
  {
    var all, n := ds + [d], |ds|;
    assert all[n] == d && forall j :: 0 <= j < n ==> all[j] == ds[j];
    if d.Select? {
      if SpeaksFor(all, n + 1, p) {
        var j :| 0 <= j < n + 1 && all[j] == Select(p) && forall k :: j < k < n + 1 ==> !all[k].Select?;
        assert j == n;
      }
    } else {
      SpeaksForPrefix(ds, d, n, p);
      if exists j :: 0 <= j < n + 1 && all[j] == Select(p) && forall k :: j < k < n + 1 ==> !all[k].Select? {
        var j :| 0 <= j < n + 1 && all[j] == Select(p) && forall k :: j < k < n + 1 ==> !all[k].Select?;
        assert all[j] == Select(p) && j < n && forall k :: j < k < n ==> !all[k].Select?;
      }
      if exists j :: 0 <= j < n && all[j] == Select(p) && forall k :: j < k < n ==> !all[k].Select? {
        var j :| 0 <= j < n && all[j] == Select(p) && forall k :: j < k < n ==> !all[k].Select?;
        assert all[j] == Select(p) && forall k :: j < k < n + 1 ==> !all[k].Select?;
      }
    }
  }

  /** Parse a profile: for any text, every entry of every plan is the one set by the last
      line that speaks for that plan, and there are no others. */
  method ParseProfile(text: string) returns (prof: Profile)
    ensures Agrees(prof, Directives(Lines(text)))
  {
    prof := Profile(NO_PLAN, NO_PLAN, NO_PLAN);
    var targets := [Easy, Medium, Hard];
    var lines := Lines(text);
    AtFirst(prof, targets);
    ghost var ds := [];
    for n := 0 to |lines|
      invariant |ds| == n && (forall i :: 0 <= i < n ==> ds[i] == DirectiveOf(lines[i]))
      invariant Agrees(prof, ds) && Targets(ds, targets) && Distinct(targets)
    {
      var prof', targets' := ReadLine(prof, targets, lines[n]);
      LineRead(prof, prof', ds, DirectiveOf(lines[n]), targets);
      TargetsNext(ds, DirectiveOf(lines[n]), targets);
      prof, targets, ds := prof', targets', ds + [DirectiveOf(lines[n])];
    }
    assert ds == Directives(lines);
  }

  lemma AtFirst(prof: Profile, targets: seq<PlanId>)
    requires prof == Profile(NO_PLAN, NO_PLAN, NO_PLAN) && targets == [Easy, Medium, Hard]
    ensures Agrees(prof, []) && Targets([], targets)
  {
    assert targets[0] == Easy && targets[1] == Medium && targets[2] == Hard;
    forall p: PlanId ensures p in targets {
      assert p == Easy || p == Medium || p == Hard;
    }
  }

  /** The body of the line loop. */
  method ReadLine(prof: Profile, targets: seq<PlanId>, line: string) returns (prof': Profile, targets': seq<PlanId>)
    requires Distinct(targets)
    ensures Applied(prof, prof', DirectiveOf(line), targets) && Distinct(targets')
    ensures targets' == if DirectiveOf(line).Select? then [DirectiveOf(line).plan] else targets
  {
    prof', targets' := prof, targets;
    var ws := WordsOf(line);
    if ws == [] { return; }
    var kw := Lower(ws[0]);
    if kw == "plan" {
      if |ws| < 2 { return; }
      var unit := Lower(ws[1]);
      if unit == "easy" { targets' := [Easy]; }
      else if unit == "medium" { targets' := [Medium]; }
      else if unit == "hard" { targets' := [Hard]; }
      return;
    }
    if kw != "weight" && kw != "limit" { return; }
    if |ws| < 3 { return; }
    var unit := Lower(ws[1]);
    var r := ParseHundredths(ws[2]);
    if r == None { return; }
    if kw == "weight" {
      prof' := SetAll(prof, targets, Weight, unit, r.value);
    } else {
      prof' := SetAll(prof, targets, Limit, unit, TruncDiv(r.value, 100));
    }
  }

  /** The loop over the targeted plans. */
  method SetAll(prof: Profile, targets: seq<PlanId>, kind: Kind, key: string, v: int) returns (prof': Profile)
    requires Distinct(targets)
    ensures Applied(prof, prof', Assign(kind, key, v), targets)
  {
    prof' := prof;
    for i := 0 to |targets|
      invariant Applied(prof, prof', Assign(kind, key, v), targets[..i])
    {
      assert targets[i] !in targets[..i];
      assert targets[..i + 1] == targets[..i] + [targets[i]];
      prof' := prof'.With(targets[i], prof'.Get(targets[i]).Set(kind, key, v));
    }
    assert targets[..|targets|] == targets;
  }
}
