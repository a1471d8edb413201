/** Folding parsed feature files into workspace and per-crate tallies. */
module BddCorpus {
  import opened Text
  import opened FeatureParser
  import opened Permutation

  /** The counters kept for the workspace and for each crate. */
  datatype Tally = Tally(
    features: nat,
    featuresSkipped: nat,
    featureTags: map<string, nat>,
    scenarios: nat,
    scenariosSkipped: nat,
    scenarioTags: map<string, nat>)

  const EMPTY: Tally := Tally(0, 0, map[], 0, 0, map[])

  datatype ParsedFile = ParsedFile(crate: string, feature: ParsedFeature)

  datatype Corpus = Corpus(summary: Tally, perCrate: map<string, Tally>)

  function Merged(t: Tally, p: ParsedFeature): Tally {
    var u := t.(features := t.features + 1, scenarios := t.scenarios + p.totalScenarios);
    if p.featureLevelSkipped then
      u.(featuresSkipped := t.featuresSkipped + 1, featureTags := AddCounts(t.featureTags, SkipCounts(p.featureTags)))
    else
      u.(scenariosSkipped := t.scenariosSkipped + p.scenarioSkipped,
         scenarioTags := AddCounts(t.scenarioTags, p.scenarioByTag))
  }

  function TallyOf(m: map<string, Tally>, crate: string): Tally {
    if crate in m then m[crate] else EMPTY
  }

  /** The file counted for its crate. */
  function Booked(m: map<string, Tally>, f: ParsedFile): map<string, Tally> {
    m[f.crate := Merged(TallyOf(m, f.crate), f.feature)]
  }

  function MergeFile(c: Corpus, f: ParsedFile): Corpus {
    Corpus(Merged(c.summary, f.feature), Booked(c.perCrate, f))
  }

  function Fold(files: seq<ParsedFile>): Corpus {
    if files == [] then Corpus(EMPTY, map[]) else MergeFile(Fold(files[..|files| - 1]), files[|files| - 1])
  }

  // ------------------------------------------------------------ in place

  function Restrict(m: map<string, nat>, keys: set<string>): map<string, nat> {
    map k | k in m && k in keys :: m[k]
  }

  lemma {:induction false} AddOneEntry(into: map<string, nat>, counts: map<string, nat>, done: set<string>, tag: string)
    requires tag in counts && tag !in done
    ensures var r := AddCounts(into, Restrict(counts, done));
      AddCounts(into, Restrict(counts, done + {tag})) == r[tag := Get(r, tag) + counts[tag]]
  {
    var r := AddCounts(into, Restrict(counts, done));
    var next := AddCounts(into, Restrict(counts, done + {tag}));
    assert next.Keys == r.Keys + {tag};
    forall k | k in next
      ensures next[k] == r[tag := Get(r, tag) + counts[tag]][k]
    {
      assert next[k] == Get(into, k) + Get(Restrict(counts, done + {tag}), k);
      assert Get(r, k) == Get(into, k) + Get(Restrict(counts, done), k);
    }
  }

  /** `for (tag, n) in counts`: each entry is added once, in whatever order. */
  method AddEntries(into: map<string, nat>, counts: map<string, nat>) returns (r: map<string, nat>)
    ensures r == AddCounts(into, counts)
  {
    r := into;
    var left := counts.Keys;
    AddNothing(into);
    assert Restrict(counts, {}) == map[] && counts.Keys - left == {};
    while left != {}
      invariant left <= counts.Keys
      invariant r == AddCounts(into, Restrict(counts, counts.Keys - left))
      decreases left
    {
      var tag :| tag in left;
      AddOneEntry(into, counts, counts.Keys - left, tag);
      assert counts.Keys - left + {tag} == counts.Keys - (left - {tag});
      r := r[tag := Get(r, tag) + counts[tag]];
      left := left - {tag};
    }
    assert Restrict(counts, counts.Keys - left) == counts;
  }

  /** `BddCrateAcc::merge`; the workspace summary is updated the same way. */
  method MergeInto(t: Tally, p: ParsedFeature) returns (r: Tally)
    ensures r == Merged(t, p)
  {
    r := t.(features := t.features + 1, scenarios := t.scenarios + p.totalScenarios);
    if p.featureLevelSkipped {
      var tags := CountSkipTags(t.featureTags, p.featureTags);
      r := r.(featuresSkipped := t.featuresSkipped + 1, featureTags := tags);
    } else {
      var tags := AddEntries(t.scenarioTags, p.scenarioByTag);
      r := r.(scenariosSkipped := t.scenariosSkipped + p.scenarioSkipped, scenarioTags := tags);
    }
  }

  class Accumulator {
    var summary: Tally
    var perCrate: map<string, Tally>

    ghost function View(): Corpus
      reads this
    {
      Corpus(summary, perCrate)
    }

    constructor ()
      ensures View() == Fold([])
    {
      summary := EMPTY;
      perCrate := map[];
    }

    method MergeParsedFeature(crate: string, feature: ParsedFeature)
      modifies this
      ensures View() == MergeFile(old(View()), ParsedFile(crate, feature))
    {
      summary := MergeInto(summary, feature);
      var entry := MergeInto(TallyOf(perCrate, crate), feature);
      perCrate := perCrate[crate := entry];
    }
  }

  /** A discovered file: its crate, and its lines unless it cannot be read. */
  datatype SourceFile = SourceFile(crate: string, contents: Option<seq<string>>)

  function ParseOne(f: SourceFile): ParsedFile
    requires f.contents.Some?
  {
    ParsedFile(f.crate, Parsed(ReadAll(f.contents.value)))
  }

  function ParsedFiles(files: seq<SourceFile>): seq<ParsedFile>
    requires forall i :: 0 <= i < |files| ==> files[i].contents.Some?
  {
    seq(|files|, i requires 0 <= i < |files| => ParseOne(files[i]))
  }

  predicate AllReadable(files: seq<SourceFile>) {
    forall i :: 0 <= i < |files| ==> files[i].contents.Some?
  }

  /** `c` is the corpus of the first `i` files, all of them readable. */
  ghost predicate Folded(files: seq<SourceFile>, i: nat, c: Corpus)
    requires i <= |files|
  {
    AllReadable(files[..i]) && c == Fold(ParsedFiles(files[..i]))
  }

  lemma {:induction false} ParsedNext(files: seq<SourceFile>, i: nat)
    requires i < |files| && AllReadable(files[..i]) && files[i].contents.Some?
    ensures AllReadable(files[..i + 1])
    ensures ParsedFiles(files[..i + 1])
      == ParsedFiles(files[..i]) + [ParseOne(files[i])]
  {
    assert files[..i + 1] == files[..i] + [files[i]];
  }

  lemma {:induction false} FoldSnoc(files: seq<ParsedFile>, f: ParsedFile)
    ensures Fold(files + [f]) == MergeFile(Fold(files), f)
  {
    assert (files + [f])[..|files|] == files;
  }

  lemma {:induction false} FoldedNext(files: seq<SourceFile>, i: nat, c: Corpus)
    requires i < |files| && files[i].contents.Some? && Folded(files, i, c)
    ensures Folded(files, i + 1, MergeFile(c, ParseOne(files[i])))
  {
    ParsedNext(files, i);
    FoldSnoc(ParsedFiles(files[..i]), ParseOne(files[i]));
  }

  /** The walk: one unreadable file is an error, otherwise every file is folded in. */
  method DiscoverCorpus(files: seq<SourceFile>) returns (corpus: Option<Corpus>)
    ensures corpus.Some? <==> AllReadable(files)
    ensures corpus.Some? ==> corpus.value == Fold(ParsedFiles(files))
  {
    var acc := new Accumulator();
    for i := 0 to |files|
      invariant fresh(acc)
      invariant Folded(files, i, acc.View())
    {
      if files[i].contents.None? {
        return None;
      }
      FoldedNext(files, i, acc.View());
      var feature := ParseFeature(files[i].contents.value);
      acc.MergeParsedFeature(files[i].crate, feature);
    }
    assert files[..|files|] == files;
    return Some(Corpus(acc.summary, acc.perCrate));
  }

  // ------------------------------------------------------------ conservation

  /** The sum of a measure over all crates. */
  ghost function SumOver(m: map<string, Tally>, measure: Tally -> nat): nat {
    if m == map[] then 0
    else
      var k :| k in m;
      measure(m[k]) + SumOver(m - {k}, measure)
  }

  lemma {:induction false} SumOverRemove(m: map<string, Tally>, measure: Tally -> nat, k: string)
    requires k in m
    ensures SumOver(m, measure) == measure(m[k]) + SumOver(m - {k}, measure)
    decreases |m|
  {
    var j :| j in m && SumOver(m, measure) == measure(m[j]) + SumOver(m - {j}, measure);
    if j != k {
      SumOverRemove(m - {j}, measure, k);
      SumOverRemove(m - {k}, measure, j);
      assert m - {j} - {k} == m - {k} - {j};
    }
  }

  /** A measure to which each file adds an amount of its own. */
  ghost predicate Additive(measure: Tally -> nat, amount: ParsedFeature -> nat) {
    && measure(EMPTY) == 0
    && forall t, p :: measure(Merged(t, p)) == measure(t) + amount(p)
  }

  /** Over all crates, every such measure adds up to the workspace total. */
  lemma {:induction false} CratesSumToWorkspace(files: seq<ParsedFile>, measure: Tally -> nat,
        amount: ParsedFeature -> nat)
    requires Additive(measure, amount)
    ensures SumOver(Fold(files).perCrate, measure) == measure(Fold(files).summary)
  {
    if files != [] {
      var c, f := Fold(files[..|files| - 1]), files[|files| - 1];
      CratesSumToWorkspace(files[..|files| - 1], measure, amount);
      var merged := Merged(TallyOf(c.perCrate, f.crate), f.feature);
      var m := c.perCrate[f.crate := merged];
      SumOverRemove(m, measure, f.crate);
      if f.crate in c.perCrate {
        SumOverRemove(c.perCrate, measure, f.crate);
      }
      assert m - {f.crate} == c.perCrate - {f.crate};
      assert f.crate !in c.perCrate ==> c.perCrate - {f.crate} == c.perCrate;
    }
  }

  /** The six counters, the two tag counters tag by tag. */
  lemma {:induction false} EveryCounterIsConserved(files: seq<ParsedFile>, tag: string)
    ensures var c := Fold(files);
      && SumOver(c.perCrate, (t: Tally) => t.features) == c.summary.features
      && SumOver(c.perCrate, (t: Tally) => t.featuresSkipped) == c.summary.featuresSkipped
      && SumOver(c.perCrate, (t: Tally) => Get(t.featureTags, tag)) == Get(c.summary.featureTags, tag)
      && SumOver(c.perCrate, (t: Tally) => t.scenarios) == c.summary.scenarios
      && SumOver(c.perCrate, (t: Tally) => t.scenariosSkipped) == c.summary.scenariosSkipped
      && SumOver(c.perCrate, (t: Tally) => Get(t.scenarioTags, tag)) == Get(c.summary.scenarioTags, tag)
  {
    CratesSumToWorkspace(files, (t: Tally) => t.features, (p: ParsedFeature) => 1);
    CratesSumToWorkspace(files, (t: Tally) => t.featuresSkipped,
      (p: ParsedFeature) => if p.featureLevelSkipped then 1 else 0);
    CratesSumToWorkspace(files, (t: Tally) => Get(t.featureTags, tag),
      (p: ParsedFeature) => if p.featureLevelSkipped then Get(SkipCounts(p.featureTags), tag) else 0);
    CratesSumToWorkspace(files, (t: Tally) => t.scenarios, (p: ParsedFeature) => p.totalScenarios);
    CratesSumToWorkspace(files, (t: Tally) => t.scenariosSkipped,
      (p: ParsedFeature) => if p.featureLevelSkipped then 0 else p.scenarioSkipped);
    CratesSumToWorkspace(files, (t: Tally) => Get(t.scenarioTags, tag),
      (p: ParsedFeature) => if p.featureLevelSkipped then 0 else Get(p.scenarioByTag, tag));
  }

  // ------------------------------------------------------------ whose crate a file counts for

  /** The files of one crate, in order. */
  function OfCrate(files: seq<ParsedFile>, crate: string): seq<ParsedFile> {
    if files == [] then []
    else
      var f := files[|files| - 1];
      OfCrate(files[..|files| - 1], crate) + (if f.crate == crate then [f] else [])
  }

  predicate HasFile(files: seq<ParsedFile>, crate: string) {
    exists i :: 0 <= i < |files| && files[i].crate == crate
  }

  lemma {:induction false} HasFileSnoc(files: seq<ParsedFile>, crate: string)
    requires files != []
    ensures HasFile(files, crate) <==> HasFile(files[..|files| - 1], crate) || files[|files| - 1].crate == crate
  {
    if i :| 0 <= i < |files| && files[i].crate == crate {
      assert i < |files| - 1 ==> files[..|files| - 1][i].crate == crate;
    }
  }

  lemma {:induction false} MergedTally(c: Corpus, f: ParsedFile, crate: string)
    ensures var after := MergeFile(c, f).perCrate;
      var t := TallyOf(c.perCrate, crate);
      && TallyOf(after, crate) == (if f.crate == crate then Merged(t, f.feature) else t)
      && (crate in after <==> crate in c.perCrate || f.crate == crate)
  {
  }

  /** A crate's tally is the workspace summary of its own files alone, and a crate has
      one exactly if it has a file. */
  lemma {:induction false} CrateCountsItsOwnFiles(files: seq<ParsedFile>, crate: string)
    ensures TallyOf(Fold(files).perCrate, crate) == Fold(OfCrate(files, crate)).summary
    ensures crate in Fold(files).perCrate <==> HasFile(files, crate)
  {
    if files != [] {
      var n := |files| - 1;
      var own := OfCrate(files[..n], crate);
      CrateCountsItsOwnFiles(files[..n], crate);
      HasFileSnoc(files, crate);
      MergedTally(Fold(files[..n]), files[n], crate);
      FoldSnoc(own, files[n]);
      assert Fold(files) == MergeFile(Fold(files[..n]), files[n]);
      assert Fold(own + [files[n]]).summary == Merged(Fold(own).summary, files[n].feature);
      assert OfCrate(files, crate) == if files[n].crate == crate then own + [files[n]] else own;
    }
  }

  /** The discovered files of one crate. */
  function FoundIn(files: seq<SourceFile>, crate: string): seq<SourceFile> {
    if files == [] then []
    else
      var f := files[|files| - 1];
      FoundIn(files[..|files| - 1], crate) + (if f.crate == crate then [f] else [])
  }

  lemma {:induction false} FoundInAre(files: seq<SourceFile>, crate: string)
    ensures forall f :: f in FoundIn(files, crate) <==> f in files && f.crate == crate
  {
    if files != [] {
      FoundInAre(files[..|files| - 1], crate);
      assert files == files[..|files| - 1] + [files[|files| - 1]];
    }
  }

  lemma {:induction false} FoundAreReadable(files: seq<SourceFile>, crate: string)
    requires AllReadable(files)
    ensures AllReadable(FoundIn(files, crate))
  {
    FoundInAre(files, crate);
    forall i | 0 <= i < |FoundIn(files, crate)| ensures FoundIn(files, crate)[i].contents.Some? {
      assert FoundIn(files, crate)[i] in files;
    }
  }

  lemma {:induction false} ReadableSnoc(files: seq<SourceFile>, f: SourceFile)
    requires AllReadable(files) && f.contents.Some?
    ensures AllReadable(files + [f])
    ensures ParsedFiles(files + [f]) == ParsedFiles(files) + [ParseOne(f)]
  {
    assert (files + [f])[..|files|] == files;
    ParsedNext(files + [f], |files|);
    assert (files + [f])[..|files| + 1] == files + [f];
  }

  lemma {:induction false} OfCrateSnoc(files: seq<ParsedFile>, f: ParsedFile, crate: string)
    ensures OfCrate(files + [f], crate) == OfCrate(files, crate) + (if f.crate == crate then [f] else [])
  {
    assert (files + [f])[..|files|] == files;
  }

  lemma {:induction false} FoundInSnoc(files: seq<SourceFile>, f: SourceFile, crate: string)
    ensures FoundIn(files + [f], crate) == FoundIn(files, crate) + (if f.crate == crate then [f] else [])
  {
    assert (files + [f])[..|files|] == files;
  }

  /** Parsing what was found in a crate, and picking a crate's files from all parsed. */
  ghost predicate SameOfCrate(files: seq<SourceFile>, crate: string)
    requires AllReadable(files)
  {
    AllReadable(FoundIn(files, crate)) && OfCrate(ParsedFiles(files), crate) == ParsedFiles(FoundIn(files, crate))
  }

  lemma {:induction false} SameOfCrateSnoc(front: seq<SourceFile>, last: SourceFile, crate: string)
    requires AllReadable(front) && SameOfCrate(front, crate) && last.contents.Some?
    ensures AllReadable(front + [last]) && SameOfCrate(front + [last], crate)
  {
    ReadableSnoc(front, last);
    OfCrateSnoc(ParsedFiles(front), ParseOne(last), crate);
    FoundInSnoc(front, last, crate);
    if last.crate == crate {
      ReadableSnoc(FoundIn(front, crate), last);
      assert FoundIn(front + [last], crate) == FoundIn(front, crate) + [last];
    } else {
      assert FoundIn(front + [last], crate) == FoundIn(front, crate);
      assert OfCrate(ParsedFiles(front + [last]), crate) == OfCrate(ParsedFiles(front), crate);
    }
  }

  lemma {:induction false} ParsedOfCrate(files: seq<SourceFile>, crate: string)
    requires AllReadable(files)
    ensures SameOfCrate(files, crate)
  {
    FoundAreReadable(files, crate);
    if files != [] {
      var front, last := files[..|files| - 1], files[|files| - 1];
      ParsedOfCrate(front, crate);
      SameOfCrateSnoc(front, last, crate);
      assert files == front + [last];
    }
  }

  /** So discovery books each file under the crate it was found in: a crate's tally is
      what its own files alone would give the workspace. */
  lemma {:induction false} DiscoveryBooksByCrate(files: seq<SourceFile>, crate: string)
    requires AllReadable(files)
    ensures AllReadable(FoundIn(files, crate))
    ensures TallyOf(Fold(ParsedFiles(files)).perCrate, crate) == Fold(ParsedFiles(FoundIn(files, crate))).summary
    ensures crate in Fold(ParsedFiles(files)).perCrate <==> exists f :: f in files && f.crate == crate
  {
    ParsedOfCrate(files, crate);
    CrateCountsItsOwnFiles(ParsedFiles(files), crate);
    if i :| 0 <= i < |files| && ParsedFiles(files)[i].crate == crate {
      assert files[i] in files;
    }
    if f :| f in files && f.crate == crate {
      var i :| 0 <= i < |files| && files[i] == f;
      assert ParsedFiles(files)[i].crate == crate;
    }
  }

  /** The scenarios of all files together. */
  function ScenariosOf(files: seq<ParsedFile>): seq<nat> {
    seq(|files|, i requires 0 <= i < |files| => files[i].feature.totalScenarios)
  }

  lemma {:induction false} ScenariosAddUp(files: seq<ParsedFile>)
    ensures Fold(files).summary.features == |files|
    ensures Fold(files).summary.scenarios == Sum(ScenariosOf(files))
  {
    if files != [] {
      var n := |files| - 1;
      ScenariosAddUp(files[..n]);
      assert ScenariosOf(files)[..n] == ScenariosOf(files[..n]);
    }
  }

  // ------------------------------------------------------------ the two signals

  /** The files skipped as a whole, and the scenarios of all others. */
  function WholeFiles(files: seq<ParsedFile>): nat {
    if files == [] then 0
    else WholeFiles(files[..|files| - 1]) + (if files[|files| - 1].feature.featureLevelSkipped then 1 else 0)
  }

  function OwnSkips(files: seq<ParsedFile>): nat {
    if files == [] then 0
    else
      var p := files[|files| - 1].feature;
      OwnSkips(files[..|files| - 1]) + (if p.featureLevelSkipped then 0 else p.scenarioSkipped)
  }

  predicate Bounded(files: seq<ParsedFile>) {
    forall i :: 0 <= i < |files| ==> files[i].feature.scenarioSkipped <= files[i].feature.totalScenarios
  }

  /** A file counts towards one skip signal only, and no skip count exceeds its total. */
  lemma {:induction false} SignalsAreDisjoint(files: seq<ParsedFile>)
    requires Bounded(files)
    ensures var s := Fold(files).summary;
      && s.features == |files| && s.featuresSkipped == WholeFiles(files) <= |files|
      && s.scenariosSkipped == OwnSkips(files) <= s.scenarios
  {
    if files != [] {
      SignalsAreDisjoint(files[..|files| - 1]);
    }
  }

  /** What the parser produces is bounded. */
  lemma {:induction false} ParsedFilesAreBounded(files: seq<SourceFile>)
    requires AllReadable(files)
    ensures Bounded(ParsedFiles(files))
  {
  }

  // ------------------------------------------------------------ what the tag counters count

  /** How often the feature line of a gated file carries `tag`. */
  function OnFeature(p: ParsedFeature, tag: string): nat {
    if p.featureLevelSkipped then Occurrences(p.featureTags, tag) else 0
  }

  function OnFeatures(files: seq<ParsedFile>, tag: string): seq<nat> {
    seq(|files|, i requires 0 <= i < |files| => OnFeature(files[i].feature, tag))
  }

  /** The number of files gated with `tag` among their feature tags. */
  function GatedBearing(files: seq<ParsedFile>, tag: string): nat {
    if files == [] then 0
    else
      var p := files[|files| - 1].feature;
      GatedBearing(files[..|files| - 1], tag) + (if p.featureLevelSkipped && tag in p.featureTags then 1 else 0)
  }

  /** No gated file repeats `tag` on its feature line. */
  predicate NoGatedRepeat(files: seq<ParsedFile>, tag: string) {
    forall i :: 0 <= i < |files| && files[i].feature.featureLevelSkipped ==>
      Occurrences(files[i].feature.featureTags, tag) <= 1
  }

  lemma {:induction false} FeatureTagsAddUp(files: seq<ParsedFile>, tag: string)
    requires IsSkipTag(tag)
    ensures Get(Fold(files).summary.featureTags, tag) == Sum(OnFeatures(files, tag))
    ensures GatedBearing(files, tag) == Positive(OnFeatures(files, tag))
  {
    if files != [] {
      var n := |files| - 1;
      FeatureTagsAddUp(files[..n], tag);
      assert OnFeatures(files, tag)[..n] == OnFeatures(files[..n], tag);
      SkipCountsCountsOccurrences(files[n].feature.featureTags, tag);
      OccursIffMember(files[n].feature.featureTags, tag);
    }
  }

  /** The workspace's feature tag counter counts files, as documented, exactly when
      no gated file repeats the tag. */
  lemma {:induction false} OncePerFileIff(files: seq<ParsedFile>, tag: string)
    requires IsSkipTag(tag)
    ensures Get(Fold(files).summary.featureTags, tag) == GatedBearing(files, tag) <==> NoGatedRepeat(files, tag)
    ensures Get(Fold(files).summary.featureTags, tag) >= GatedBearing(files, tag)
  {
    FeatureTagsAddUp(files, tag);
    var counts := OnFeatures(files, tag);
    SumAgainstPositive(counts);
    assert AtMostOnce(counts) <==> NoGatedRepeat(files, tag) by {
      assert forall i :: 0 <= i < |files| ==> counts[i] == OnFeature(files[i].feature, tag);
    }
  }

  function LinesOf(f: SourceFile): seq<Line>
    requires f.contents.Some?
  {
    ReadAll(f.contents.value)
  }

  /** How often each skipped scenario of the files that are not gated carries `tag`. */
  function OnScenarios(files: seq<SourceFile>, tag: string): seq<nat>
    requires AllReadable(files)
  {
    if files == [] then []
    else
      var lines := LinesOf(files[|files| - 1]);
      OnScenarios(files[..|files| - 1], tag)
      + (if Parsed(lines).featureLevelSkipped then [] else Heres(lines, |lines|, tag))
  }

  /** What the last file adds to the counter. */
  lemma {:induction false} LastFileAdds(files: seq<SourceFile>, tag: string)
    requires AllReadable(files) && files != []
    ensures var p := Parsed(LinesOf(files[|files| - 1]));
      Get(Fold(ParsedFiles(files)).summary.scenarioTags, tag)
      == Get(Fold(ParsedFiles(files[..|files| - 1])).summary.scenarioTags, tag)
       + (if p.featureLevelSkipped then 0 else Get(p.scenarioByTag, tag))
  {
    var n := |files| - 1;
    ParsedNext(files, n);
    assert files[..n + 1] == files;
    FoldSnoc(ParsedFiles(files[..n]), ParseOne(files[n]));
  }

  lemma {:induction false} ScenarioTagsAddUp(files: seq<SourceFile>, tag: string)
    requires AllReadable(files) && IsSkipTag(tag)
    ensures Get(Fold(ParsedFiles(files)).summary.scenarioTags, tag) == Sum(OnScenarios(files, tag))
  {
    if files == [] {
      assert ParsedFiles(files) == [];
    } else {
      var n := |files| - 1;
      var lines := LinesOf(files[n]);
      ScenarioTagsAddUp(files[..n], tag);
      LastFileAdds(files, tag);
      assert Get(Parsed(lines).scenarioByTag, tag) == Sum(Heres(lines, |lines|, tag)) by {
        ByTagCountsOccurrences(lines, |lines|, tag);
      }
      SumAppend(OnScenarios(files[..n], tag),
        if Parsed(lines).featureLevelSkipped then [] else Heres(lines, |lines|, tag));
    }
  }

  /** The workspace's scenario tag counter counts scenarios, as documented, exactly
      when no skipped scenario outside the gated files repeats the tag. */
  lemma {:induction false} OncePerCorpusScenarioIff(files: seq<SourceFile>, tag: string)
    requires AllReadable(files) && IsSkipTag(tag)
    ensures var count := Get(Fold(ParsedFiles(files)).summary.scenarioTags, tag);
      && (count == Positive(OnScenarios(files, tag)) <==> AtMostOnce(OnScenarios(files, tag)))
      && count >= Positive(OnScenarios(files, tag))
  {
    ScenarioTagsAddUp(files, tag);
    SumAgainstPositive(OnScenarios(files, tag));
  }

  lemma {:induction false} OneFile(crate: string, raw: seq<string>)
    ensures var files := [SourceFile(crate, Some(raw))];
      && AllReadable(files) && Fold(ParsedFiles(files)).summary == Merged(EMPTY, Parsed(ReadAll(raw)))
  {
    var f := ParsedFile(crate, Parsed(ReadAll(raw)));
    assert ParsedFiles([SourceFile(crate, Some(raw))]) == [f];
    FoldSnoc([], f);
    assert [] + [f] == [f];
  }

  /** Two one-file corpora, of which each counts its one file or scenario twice. */
  lemma {:induction false} RepeatedTagsCountTwice(crate: string)
    ensures var gated := [SourceFile(crate, Some(["@wip @wip", "Feature: a"]))];
      var single := [SourceFile(crate, Some(["@wip @wip", "Scenario: a"]))];
      && AllReadable(gated) && AllReadable(single)
      && Fold(ParsedFiles(gated)).summary.featuresSkipped == 1
      && Get(Fold(ParsedFiles(gated)).summary.featureTags, "@wip") == 2
      && Fold(ParsedFiles(single)).summary.scenariosSkipped == 1
      && Get(Fold(ParsedFiles(single)).summary.scenarioTags, "@wip") == 2
  {
    OneFile(crate, ["@wip @wip", "Feature: a"]);
    OneFile(crate, ["@wip @wip", "Scenario: a"]);
    ReadTwo("@wip @wip", "Feature: a");
    ReadTwoTags();
    ReadFeature();
    RepeatedFeatureTag("@wip");
    ReadRepeated();
    RepeatedTag("@wip");
  }

  // ------------------------------------------------------------ order does not matter

  lemma {:induction false} AddCountsCommute(m: map<string, nat>, a: map<string, nat>, b: map<string, nat>)
    ensures AddCounts(AddCounts(m, a), b) == AddCounts(AddCounts(m, b), a)
  {
    var x, y := AddCounts(AddCounts(m, a), b), AddCounts(AddCounts(m, b), a);
    assert x.Keys == y.Keys;
    assert forall k :: k in x ==> x[k] == Get(x, k) && y[k] == Get(y, k);
  }

  lemma {:induction false} MergedCommutes(t: Tally, p: ParsedFeature, q: ParsedFeature)
    ensures Merged(Merged(t, p), q) == Merged(Merged(t, q), p)
  {
    AddCountsCommute(t.featureTags, SkipCounts(p.featureTags), SkipCounts(q.featureTags));
    AddCountsCommute(t.scenarioTags, p.scenarioByTag, q.scenarioByTag);
  }

  lemma {:induction false} BookedCommutes(m: map<string, Tally>, f: ParsedFile, g: ParsedFile)
    ensures Booked(Booked(m, f), g) == Booked(Booked(m, g), f)
  {
    if f.crate == g.crate {
      MergedCommutes(TallyOf(m, f.crate), f.feature, g.feature);
    }
  }

  lemma {:induction false} MergeFileCommutes(c: Corpus, f: ParsedFile, g: ParsedFile)
    ensures MergeFile(MergeFile(c, f), g) == MergeFile(MergeFile(c, g), f)
  {
    MergedCommutes(c.summary, f.feature, g.feature);
    BookedCommutes(c.perCrate, f, g);
  }

  /** A file may be folded in last, wherever it stands. */
  lemma {:induction false} FoldLast(files: seq<ParsedFile>, i: nat)
    requires i < |files|
    ensures Fold(files) == MergeFile(Fold(Without(files, i)), files[i])
  {
    var n := |files| - 1;
    if i == n {
      assert Without(files, i) == files[..n];
    } else {
      FoldLast(files[..n], i);
      WithoutSnoc(files, i);
      FoldSnoc(Without(files[..n], i), files[n]);
      MergeFileCommutes(Fold(Without(files[..n], i)), files[i], files[n]);
    }
  }

  /** The corpus is the same for every order of the files. */
  lemma {:induction false} OrderDoesNotMatter(a: seq<ParsedFile>, b: seq<ParsedFile>)
    requires multiset(a) == multiset(b)
    ensures Fold(a) == Fold(b)
    decreases |a|
  {
    if a == [] {
      NothingPermuted(a, b);
    } else {
      var i := LastOf(a, b);
      OrderDoesNotMatter(a[..|a| - 1], Without(b, i));
      FoldLast(b, i);
    }
  }
}
