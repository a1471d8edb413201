/** Counting scenarios and skip tags in one `.feature` file.  The file is given as
    its lines; the parser keeps a buffer of pending tags. */
module FeatureParser {
  import opened Text

  datatype LineKind = Skip | Tags | FeatureOrRule | ScenarioStart | Background | Other

  datatype ParsedFeature = ParsedFeature(
    totalScenarios: nat,
    scenarioSkipped: nat,
    featureLevelSkipped: bool,
    featureTags: seq<string>,
    scenarioByTag: map<string, nat>)

  function Classify(line: string): LineKind {
    if line == "" || StartsWith(line, "#") then Skip
    else if StartsWith(line, "@") then Tags
    else if StartsWith(line, "Feature:") || StartsWith(line, "Rule:") then FeatureOrRule
    else if StartsWith(line, "Scenario:") || StartsWith(line, "Scenario Outline:") || StartsWith(line, "Example:")
      then ScenarioStart
    else if StartsWith(line, "Background:") then Background
    else Other
  }

  /** Length of the leading run of non-space characters. */
  function TokenLength(s: string): (n: nat)
    ensures n <= |s| && (n < |s| ==> IsSpace(s[n]))
    ensures forall i :: 0 <= i < n ==> !IsSpace(s[i])
    ensures s != [] && !IsSpace(s[0]) ==> 0 < n
  {
    if s == [] || IsSpace(s[0]) then 0 else 1 + TokenLength(s[1..])
  }

  function SplitWhitespace(s: string): seq<string>
    decreases |s|
  {
    if s == [] then []
    else if IsSpace(s[0]) then SplitWhitespace(s[1..])
    else [s[..TokenLength(s)]] + SplitWhitespace(s[TokenLength(s)..])
  }

  function OnlyTags(tokens: seq<string>): seq<string> {
    if tokens == [] then []
    else (if StartsWith(tokens[0], "@") then [tokens[0]] else []) + OnlyTags(tokens[1..])
  }

  /** Every `@token` of a tag line. */
  function ExtractTags(line: string): seq<string> {
    OnlyTags(SplitWhitespace(line))
  }

  predicate IsSkipTag(tag: string) {
    tag == "@wip" || tag == "@future" || tag == "@ignore" || tag == "@skip" || StartsWith(tag, "@tracked:")
  }

  predicate AnySkipTag(tags: seq<string>) {
    exists i :: 0 <= i < |tags| && IsSkipTag(tags[i])
  }

  /** One line as the parser sees it. */
  datatype Line = Line(kind: LineKind, tags: seq<string>)

  function ReadLine(raw: string): Line {
    var kind := Classify(Trim(raw));
    Line(kind, if kind.Tags? then ExtractTags(Trim(raw)) else [])
  }

  function ReadAll(contents: seq<string>): seq<Line> {
    seq(|contents|, i requires 0 <= i < |contents| => ReadLine(contents[i]))
  }

  // ------------------------------------------------------------ tag counters

  function Get(m: map<string, nat>, k: string): nat {
    if k in m then m[k] else 0
  }

  /** `*m.entry(k).or_insert(0) += n` for every entry of `a`. */
  function AddCounts(m: map<string, nat>, a: map<string, nat>): (r: map<string, nat>)
    ensures forall k :: Get(r, k) == Get(m, k) + Get(a, k)
  {
    map k | k in m.Keys + a.Keys :: Get(m, k) + Get(a, k)
  }

  /** How often each skip tag occurs. */
  function SkipCounts(tags: seq<string>): map<string, nat> {
    if tags == [] then map[]
    else
      var rest, tag := SkipCounts(tags[..|tags| - 1]), tags[|tags| - 1];
      if IsSkipTag(tag) then AddCounts(rest, map[tag := 1]) else rest
  }

  lemma {:induction false} CountOneMore(m: map<string, nat>, a: map<string, nat>, tag: string)
    ensures AddCounts(m, a)[tag := Get(AddCounts(m, a), tag) + 1] == AddCounts(m, AddCounts(a, map[tag := 1]))
  {
    var x, y := AddCounts(m, a)[tag := Get(AddCounts(m, a), tag) + 1], AddCounts(m, AddCounts(a, map[tag := 1]));
    assert x.Keys == y.Keys;
    forall k | k in x.Keys
      ensures x[k] == y[k]
    {
      assert y[k] == Get(m, k) + Get(AddCounts(a, map[tag := 1]), k);
    }
  }

  lemma {:induction false} AddNothing(m: map<string, nat>)
    ensures AddCounts(m, map[]) == m
  {
    assert AddCounts(m, map[]).Keys == m.Keys;
  }

  method CountSkipTags(counts: map<string, nat>, tags: seq<string>) returns (r: map<string, nat>)
    ensures r == AddCounts(counts, SkipCounts(tags))
  {
    r := counts;
    AddNothing(counts);
    for i := 0 to |tags|
      invariant r == AddCounts(counts, SkipCounts(tags[..i]))
    {
      assert tags[..i + 1][..i] == tags[..i];
      CountOneMore(counts, SkipCounts(tags[..i]), tags[i]);
      if IsSkipTag(tags[i]) {
        r := r[tags[i] := Get(r, tags[i]) + 1];
      }
    }
    assert tags[..|tags|] == tags;
  }

  // ------------------------------------------------------------ what is to be counted

  predicate IsBoundary(kind: LineKind) {
    kind.FeatureOrRule? || kind.ScenarioStart? || kind.Background?
  }

  /** Just past the last feature, rule, scenario or background line before `i`. */
  function LastBoundary(lines: seq<Line>, i: nat): (b: nat)
    requires i <= |lines|
    ensures b <= i && (0 < b ==> IsBoundary(lines[b - 1].kind))
    ensures forall j :: b <= j < i ==> !IsBoundary(lines[j].kind)
  {
    if i == 0 || IsBoundary(lines[i - 1].kind) then i else LastBoundary(lines, i - 1)
  }

  /** The tokens on the tag lines of [lo, hi). */
  function TokensOn(lines: seq<Line>, lo: nat, hi: nat): seq<string>
    requires hi <= |lines|
  {
    if hi <= lo then []
    else TokensOn(lines, lo, hi - 1) + (if lines[hi - 1].kind.Tags? then lines[hi - 1].tags else [])
  }

  /** The tags that belong to the line `i`. */
  function TagsOf(lines: seq<Line>, i: nat): seq<string>
    requires i <= |lines|
  {
    TokensOn(lines, LastBoundary(lines, i), i)
  }

  /** The first feature or rule line before `n`, or `n`. */
  function FirstFeature(lines: seq<Line>, n: nat): (f: nat)
    requires n <= |lines|
    ensures f <= n && (f < n ==> lines[f].kind.FeatureOrRule?)
    ensures forall j :: 0 <= j < f ==> !lines[j].kind.FeatureOrRule?
  {
    if n == 0 then 0
    else
      var f := FirstFeature(lines, n - 1);
      if f < n - 1 || lines[n - 1].kind.FeatureOrRule? then f else n
  }

  /** The feature-level tags known once the first `n` lines are read. */
  function FeatureTags(lines: seq<Line>, n: nat): seq<string>
    requires n <= |lines|
  {
    var f := FirstFeature(lines, n);
    if f < n then TagsOf(lines, f) else []
  }

  /** A scenario line that carries a skip tag of its own, in a file not known at
      that point to be skipped as a whole. */
  predicate Skipped(lines: seq<Line>, i: nat)
    requires i < |lines|
  {
    lines[i].kind.ScenarioStart? && !AnySkipTag(FeatureTags(lines, i)) && AnySkipTag(TagsOf(lines, i))
  }

  function CountScenarios(lines: seq<Line>, n: nat): nat
    requires n <= |lines|
  {
    if n == 0 then 0 else CountScenarios(lines, n - 1) + if lines[n - 1].kind.ScenarioStart? then 1 else 0
  }

  function CountSkipped(lines: seq<Line>, n: nat): (c: nat)
    requires n <= |lines|
    ensures c <= CountScenarios(lines, n)
  {
    if n == 0 then 0 else CountSkipped(lines, n - 1) + if Skipped(lines, n - 1) then 1 else 0
  }

  function ByTag(lines: seq<Line>, n: nat): map<string, nat>
    requires n <= |lines|
  {
    if n == 0 then map[]
    else if Skipped(lines, n - 1) then AddCounts(ByTag(lines, n - 1), SkipCounts(TagsOf(lines, n - 1)))
    else ByTag(lines, n - 1)
  }

  /** The counts of a file's first `n` lines. */
  function ParsedUpTo(lines: seq<Line>, n: nat): ParsedFeature
    requires n <= |lines|
  {
    ParsedFeature(CountScenarios(lines, n), CountSkipped(lines, n),
                  AnySkipTag(FeatureTags(lines, n)), FeatureTags(lines, n), ByTag(lines, n))
  }

  function Parsed(lines: seq<Line>): ParsedFeature {
    ParsedUpTo(lines, |lines|)
  }

  // ------------------------------------------------------------ the parser

  method TallyScenarioTags(parsed: ParsedFeature, pending: seq<string>) returns (r: ParsedFeature)
    ensures r == if parsed.featureLevelSkipped || !AnySkipTag(pending)
      then parsed.(totalScenarios := parsed.totalScenarios + 1)
      else parsed.(totalScenarios := parsed.totalScenarios + 1,
                   scenarioSkipped := parsed.scenarioSkipped + 1,
                   scenarioByTag := AddCounts(parsed.scenarioByTag, SkipCounts(pending)))
  {
    r := parsed.(totalScenarios := parsed.totalScenarios + 1);
    if parsed.featureLevelSkipped { return; }
    if !AnySkipTag(pending) { return; }
    var counts := CountSkipTags(parsed.scenarioByTag, pending);
    r := r.(scenarioSkipped := parsed.scenarioSkipped + 1, scenarioByTag := counts);
  }

  lemma {:induction false} PendingAfter(lines: seq<Line>, i: nat)
    requires i < |lines|
    ensures TagsOf(lines, i + 1) ==
      if IsBoundary(lines[i].kind) then []
      else if lines[i].kind.Tags? then TagsOf(lines, i) + lines[i].tags
      else TagsOf(lines, i)
  {
    assert TagsOf(lines, i) + [] == TagsOf(lines, i);
  }

  /** The feature-level tags are settled by the first feature or rule line. */
  lemma {:induction false} FeatureAfter(lines: seq<Line>, i: nat)
    requires i < |lines|
    ensures FirstFeature(lines, i + 1) < i + 1 <==> FirstFeature(lines, i) < i || lines[i].kind.FeatureOrRule?
    ensures FeatureTags(lines, i + 1) ==
      if lines[i].kind.FeatureOrRule? && FirstFeature(lines, i) == i then TagsOf(lines, i) else FeatureTags(lines, i)
  {
  }

  /** What one more line adds. */
  lemma {:induction false} ParsedAfter(lines: seq<Line>, i: nat)
    requires i < |lines|
    ensures var before, after := ParsedUpTo(lines, i), ParsedUpTo(lines, i + 1);
      match lines[i].kind
      case ScenarioStart =>
        after == if before.featureLevelSkipped || !AnySkipTag(TagsOf(lines, i))
          then before.(totalScenarios := before.totalScenarios + 1)
          else before.(totalScenarios := before.totalScenarios + 1,
                       scenarioSkipped := before.scenarioSkipped + 1,
                       scenarioByTag := AddCounts(before.scenarioByTag, SkipCounts(TagsOf(lines, i))))
      case FeatureOrRule =>
        after == if FirstFeature(lines, i) < i then before
          else before.(featureTags := TagsOf(lines, i), featureLevelSkipped := AnySkipTag(TagsOf(lines, i)))
      case _ => after == before
  {
    FeatureAfter(lines, i);
  }

  /** The parser's variables after the first `i` lines. */
  predicate Reached(lines: seq<Line>, i: nat, parsed: ParsedFeature, pending: seq<string>, featureSeen: bool)
    requires i <= |lines|
  {
    && pending == TagsOf(lines, i)
    && (featureSeen <==> FirstFeature(lines, i) < i)
    && parsed == ParsedUpTo(lines, i)
  }

  /** The body of the line loop. */
  method TakeLine(ghost lines: seq<Line>, ghost i: nat, line: Line, parsed: ParsedFeature, pending: seq<string>,
        featureSeen: bool)
    returns (parsed': ParsedFeature, pending': seq<string>, featureSeen': bool)
    requires i < |lines| && lines[i] == line && Reached(lines, i, parsed, pending, featureSeen)
    ensures Reached(lines, i + 1, parsed', pending', featureSeen')
  {
    PendingAfter(lines, i);
    FeatureAfter(lines, i);
    ParsedAfter(lines, i);
    parsed', pending', featureSeen' := parsed, pending, featureSeen;
    match line.kind {
      case Skip =>
      case Other =>
      case Tags => pending' := pending + line.tags;
      case FeatureOrRule =>
        if featureSeen {
          pending' := [];
        } else {
          parsed' := parsed.(featureTags := pending, featureLevelSkipped := AnySkipTag(pending));
          featureSeen' := true;
          pending' := [];
        }
      case ScenarioStart =>
        parsed' := TallyScenarioTags(parsed, pending);
        pending' := [];
      case Background => pending' := [];
    }
  }

  method ParseFeature(contents: seq<string>) returns (parsed: ParsedFeature)
    ensures parsed == Parsed(ReadAll(contents))
  {
    var pending: seq<string> := [];
    var featureSeen := false;
    ghost var lines := ReadAll(contents);
    parsed := ParsedFeature(0, 0, false, [], map[]);
    for i := 0 to |contents|
      invariant Reached(lines, i, parsed, pending, featureSeen)
    {
      parsed, pending, featureSeen := TakeLine(lines, i, ReadLine(contents[i]), parsed, pending, featureSeen);
    }
  }

  // ------------------------------------------------------------ per-tag counts

  function Occurrences(tags: seq<string>, tag: string): nat {
    if tags == [] then 0
    else Occurrences(tags[..|tags| - 1], tag) + if tags[|tags| - 1] == tag then 1 else 0
  }

  lemma {:induction false} SkipCountsCountsOccurrences(tags: seq<string>, tag: string)
    ensures Get(SkipCounts(tags), tag) == if IsSkipTag(tag) then Occurrences(tags, tag) else 0
  {
    if tags != [] { SkipCountsCountsOccurrences(tags[..|tags| - 1], tag); }
  }

  lemma {:induction false} OccursIffMember(tags: seq<string>, tag: string)
    ensures 0 < Occurrences(tags, tag) <==> tag in tags
  {
    if tags != [] {
      var n := |tags| - 1;
      OccursIffMember(tags[..n], tag);
      assert tags == tags[..n] + [tags[n]];
    }
  }

  /** How often the scenario line `i`, if skipped, carries `tag`. */
  function Here(lines: seq<Line>, i: nat, tag: string): nat
    requires i < |lines|
  {
    if Skipped(lines, i) then Occurrences(TagsOf(lines, i), tag) else 0
  }

  /** `Here`, line by line. */
  function Heres(lines: seq<Line>, n: nat, tag: string): seq<nat>
    requires n <= |lines|
  {
    seq(n, i requires 0 <= i < n => Here(lines, i, tag))
  }

  function Sum(counts: seq<nat>): nat {
    if counts == [] then 0 else Sum(counts[..|counts| - 1]) + counts[|counts| - 1]
  }

  predicate AtMostOnce(counts: seq<nat>) {
    forall i :: 0 <= i < |counts| ==> counts[i] <= 1
  }

  function Positive(counts: seq<nat>): nat {
    if counts == [] then 0 else Positive(counts[..|counts| - 1]) + (if 0 < counts[|counts| - 1] then 1 else 0)
  }

  /** Occurrences of `tag` over the skipped scenarios of the first `n` lines. */
  function TagTotal(lines: seq<Line>, n: nat, tag: string): nat
    requires n <= |lines|
  {
    Sum(Heres(lines, n, tag))
  }

  /** The number of skipped scenarios that carry `tag`. */
  function Bearing(lines: seq<Line>, n: nat, tag: string): nat
    requires n <= |lines|
  {
    Positive(Heres(lines, n, tag))
  }

  /** The per-tag counter adds up occurrences, and nothing but skip tags. */
  lemma {:induction false} ByTagCountsOccurrences(lines: seq<Line>, n: nat, tag: string)
    requires n <= |lines|
    ensures Get(ByTag(lines, n), tag) == if IsSkipTag(tag) then TagTotal(lines, n, tag) else 0
  {
    if n > 0 {
      ByTagCountsOccurrences(lines, n - 1, tag);
      assert Heres(lines, n, tag)[..n - 1] == Heres(lines, n - 1, tag);
      SkipCountsCountsOccurrences(TagsOf(lines, n - 1), tag);
    }
  }

  lemma {:induction false} SumAgainstPositive(counts: seq<nat>)
    ensures Sum(counts) >= Positive(counts)
    ensures Sum(counts) == Positive(counts) <==> AtMostOnce(counts)
  {
    if counts != [] {
      var n := |counts| - 1;
      SumAgainstPositive(counts[..n]);
      assert AtMostOnce(counts) <==> AtMostOnce(counts[..n]) && counts[n] <= 1;
    }
  }

  lemma {:induction false} SumAppend(a: seq<nat>, b: seq<nat>)
    ensures Sum(a + b) == Sum(a) + Sum(b)
  {
    if b == [] {
      assert a + b == a;
    } else {
      var n := |b| - 1;
      SumAppend(a, b[..n]);
      assert (a + b)[..|a + b| - 1] == a + b[..n];
    }
  }

  /** So it is "once per scenario", as documented, exactly when no skipped scenario
      repeats the tag. */
  lemma {:induction false} OncePerScenarioIff(lines: seq<Line>, n: nat, tag: string)
    requires n <= |lines| && IsSkipTag(tag)
    ensures Get(ByTag(lines, n), tag) == Bearing(lines, n, tag) <==> AtMostOnce(Heres(lines, n, tag))
    ensures Get(ByTag(lines, n), tag) >= Bearing(lines, n, tag)
  {
    ByTagCountsOccurrences(lines, n, tag);
    SumAgainstPositive(Heres(lines, n, tag));
  }

  /** A file in which it is not. */
  lemma {:induction false} RepeatedTagCountsTwice()
    ensures var file := Parsed(ReadAll(["@wip @wip", "Scenario: a"]));
      Get(file.scenarioByTag, "@wip") == 2 && file.scenarioSkipped == 1
  {
    ReadRepeated();
    RepeatedTag("@wip");
  }

  lemma {:induction false} RepeatedTag(tag: string)
    requires IsSkipTag(tag)
    ensures var file := Parsed([Line(Tags, [tag, tag]), Line(ScenarioStart, [])]);
      Get(file.scenarioByTag, tag) == 2 && file.scenarioSkipped == 1
  {
    var lines := [Line(Tags, [tag, tag]), Line(ScenarioStart, [])];
    assert LastBoundary(lines, 1) == 0;
    assert TokensOn(lines, 0, 0) == [];
    assert TagsOf(lines, 1) == [tag, tag];
    assert IsSkipTag(TagsOf(lines, 1)[0]);
    assert FirstFeature(lines, 0) == 0;
    assert FirstFeature(lines, 1) == 1;
    assert FeatureTags(lines, 1) == [];
    assert Skipped(lines, 1) && !Skipped(lines, 0);
    assert [tag, tag][..1] == [tag] && [tag][..0] == [];
    assert Occurrences([tag], tag) == 1;
    ByTagCountsOccurrences(lines, 2, tag);
    assert Heres(lines, 2, tag) == [0, 2] && [0, 2][..1] == [0] && Sum([0]) == 0;
    assert CountSkipped(lines, 0) == 0 && CountSkipped(lines, 1) == 0;
  }

  lemma {:induction false} ReadTwo(a: string, b: string)
    ensures ReadAll([a, b]) == [ReadLine(a), ReadLine(b)]
  {
  }

  lemma {:induction false} ReadRepeated()
    ensures ReadAll(["@wip @wip", "Scenario: a"]) == [Line(Tags, ["@wip", "@wip"]), Line(ScenarioStart, [])]
  {
    ReadTwo("@wip @wip", "Scenario: a");
    ReadTwoTags();
    ReadScenario();
  }

  /** A file whose one feature line repeats its tag. */
  lemma {:induction false} RepeatedFeatureTag(tag: string)
    requires IsSkipTag(tag)
    ensures var file := Parsed([Line(Tags, [tag, tag]), Line(FeatureOrRule, [])]);
      file.featureLevelSkipped && file.featureTags == [tag, tag] && Get(SkipCounts(file.featureTags), tag) == 2
  {
    var lines := [Line(Tags, [tag, tag]), Line(FeatureOrRule, [])];
    PendingAfter(lines, 0);
    assert TagsOf(lines, 0) == [] && TagsOf(lines, 1) == [tag, tag];
    assert FirstFeature(lines, 0) == 0 && FirstFeature(lines, 1) == 1;
    FeatureAfter(lines, 1);
    assert FeatureTags(lines, 2) == [tag, tag];
    assert IsSkipTag([tag, tag][0]);
    SkipCountsCountsOccurrences([tag, tag], tag);
    assert [tag, tag][..1] == [tag] && [tag][..0] == [];
    assert Occurrences([tag], tag) == 1;
  }

  lemma {:induction false} ReadFeature()
    ensures ReadLine("Feature: a") == Line(FeatureOrRule, [])
  {
    var s := "Feature: a";
    assert TrimStart(s) == s && TrimEnd(s) == s;
    assert Classify(s) == FeatureOrRule;
  }

  lemma {:induction false} ReadScenario()
    ensures ReadLine("Scenario: a") == Line(ScenarioStart, [])
  {
    var s := "Scenario: a";
    assert TrimStart(s) == s && TrimEnd(s) == s;
    assert Classify(s) == ScenarioStart;
  }

  lemma {:induction false} ReadTwoTags()
    ensures ReadLine("@wip @wip") == Line(Tags, ["@wip", "@wip"])
  {
    var tag, s := "@wip", "@wip @wip";
    assert TrimStart(s) == s && TrimEnd(s) == s;
    assert Classify(s) == Tags;
    SplitTwo(tag, tag);
    assert tag + " " + tag == s;
    assert [tag, tag][1..] == [tag] && [tag][1..] == [];
    assert OnlyTags([tag]) == [tag];
    assert OnlyTags([tag, tag]) == [tag] + [tag];
  }

  lemma {:induction false} TokenThenSpace(a: string, rest: string)
    requires forall i :: 0 <= i < |a| ==> !IsSpace(a[i])
    requires rest == [] || IsSpace(rest[0])
    ensures TokenLength(a + rest) == |a|
  {
    var s := a + rest;
    assert forall i :: 0 <= i < |a| ==> s[i] == a[i];
    assert rest != [] ==> s[|a|] == rest[0];
  }

  lemma {:induction false} SplitTwo(a: string, b: string)
    requires a != [] && b != []
    requires forall i :: 0 <= i < |a| ==> !IsSpace(a[i])
    requires forall i :: 0 <= i < |b| ==> !IsSpace(b[i])
    ensures SplitWhitespace(a + " " + b) == [a, b]
  {
    var s, rest := a + " " + b, " " + b;
    assert s == a + rest && rest[1..] == b && b == b + [];
    TokenThenSpace(a, rest);
    TokenThenSpace(b, []);
    assert s[..|a|] == a && s[|a|..] == rest && b[..|b|] == b && b[|b|..] == [];
    assert SplitWhitespace(b) == [b] + SplitWhitespace([]);
    assert SplitWhitespace(rest) == SplitWhitespace(b);
    assert s[0] == a[0];
  }
}
