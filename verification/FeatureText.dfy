/** Feature files as they are written: blocks of tags, a keyword line and steps, and
    what the parser makes of their text. */
module FeatureText {
  import opened Text
  import opened FeatureParser

  // ------------------------------------------------------------ files as blocks

  datatype Keyword = Feature | Rule | Scenario | Outline | Example | Background {
    function Text(): string {
      match this
      case Feature => "Feature:"
      case Rule => "Rule:"
      case Scenario => "Scenario:"
      case Outline => "Scenario Outline:"
      case Example => "Example:"
      case Background => "Background:"
    }

    predicate Opens() {
      Feature? || Rule?
    }

    predicate Counts() {
      Scenario? || Outline? || Example?
    }
  }

  /** On a tag line: a tag, without its `@`, or any other word. */
  datatype Token = Tag(name: string) | Word(text: string)

  /** A line that says nothing to the parser. */
  datatype Filler = Blank | Comment(text: string) | Given(text: string) | When(text: string) | Then(text: string)
    | And(text: string) | Cell(text: string)
  {
    function Text(): string {
      match this
      case Blank => ""
      case Comment(text) => "#" + text
      case Given(text) => "Given" + text
      case When(text) => "When" + text
      case Then(text) => "Then" + text
      case And(text) => "And" + text
      case Cell(text) => "|" + text
    }
  }

  /** A line above the keyword: tags, or filler between them. */
  datatype Above = TagLine(first: string, rest: seq<Token>) | Between(filler: Filler)

  /** Every line is indented by `indent`; `title` is what follows the keyword. */
  datatype Block = Block(indent: string, above: seq<Above>, keyword: Keyword, title: string, body: seq<Filler>)

  // ------------------------------------------------------------ their text

  /** Something to be read as one token. */
  predicate Solid(s: string) {
    forall i :: 0 <= i < |s| ==> !IsSpace(s[i])
  }

  predicate GoodToken(t: Token) {
    match t
    case Tag(name) => Solid(name)
    case Word(text) => Solid(text) && text != "" && text[0] != '@'
  }

  predicate GoodAbove(a: Above) {
    a.TagLine? ==> Solid(a.first) && forall i :: 0 <= i < |a.rest| ==> GoodToken(a.rest[i])
  }

  predicate Good(b: Block) {
    && (forall i :: 0 <= i < |b.indent| ==> IsSpace(b.indent[i]))
    && forall i :: 0 <= i < |b.above| ==> GoodAbove(b.above[i])
  }

  function TokenText(t: Token): string {
    match t
    case Tag(name) => "@" + name
    case Word(text) => text
  }

  /** Each token with a space in front. */
  function Tokens(ts: seq<Token>): string {
    if ts == [] then "" else " " + TokenText(ts[0]) + Tokens(ts[1..])
  }

  function AboveText(a: Above): string {
    match a
    case TagLine(first, rest) => "@" + first + Tokens(rest)
    case Between(filler) => filler.Text()
  }

  function AboveLines(indent: string, above: seq<Above>): seq<string> {
    if above == [] then [] else [indent + AboveText(above[0])] + AboveLines(indent, above[1..])
  }

  function BodyLines(indent: string, body: seq<Filler>): seq<string> {
    if body == [] then [] else [indent + body[0].Text()] + BodyLines(indent, body[1..])
  }

  function BlockLines(b: Block): seq<string> {
    AboveLines(b.indent, b.above) + [b.indent + b.keyword.Text() + b.title] + BodyLines(b.indent, b.body)
  }

  function FileLines(blocks: seq<Block>): seq<string> {
    if blocks == [] then [] else FileLines(blocks[..|blocks| - 1]) + BlockLines(blocks[|blocks| - 1])
  }

  // ------------------------------------------------------------ what they mean

  function TagNames(ts: seq<Token>): seq<string> {
    if ts == [] then []
    else (if ts[0].Tag? then ["@" + ts[0].name] else []) + TagNames(ts[1..])
  }

  function TagsOn(a: Above): seq<string> {
    match a
    case TagLine(first, rest) => ["@" + first] + TagNames(rest)
    case Between(_) => []
  }

  function AboveTags(above: seq<Above>): seq<string> {
    if above == [] then [] else TagsOn(above[0]) + AboveTags(above[1..])
  }

  function Tags(b: Block): seq<string> {
    AboveTags(b.above)
  }

  /** One of the four known words, or the id of a tracked issue. */
  predicate Skips(tag: string) {
    tag in {"@wip", "@future", "@ignore", "@skip"} || "@tracked:" <= tag
  }

  predicate Gates(tags: seq<string>) {
    exists i :: 0 <= i < |tags| && Skips(tags[i])
  }

  /** `f` is the first feature or rule. */
  predicate IsHead(blocks: seq<Block>, f: nat) {
    && f < |blocks| && blocks[f].keyword.Opens()
    && forall j :: 0 <= j < f ==> !blocks[j].keyword.Opens()
  }

  /** The file is gated as a whole by the first `n` blocks. */
  predicate GatedBy(blocks: seq<Block>, n: nat) {
    exists f :: 0 <= f < n && IsHead(blocks, f) && Gates(Tags(blocks[f]))
  }

  function Scenarios(blocks: seq<Block>): set<nat> {
    set i | 0 <= i < |blocks| && blocks[i].keyword.Counts()
  }

  /** A scenario with a skip tag of its own, below no gated feature or rule. */
  predicate IsSkipped(blocks: seq<Block>, i: nat) {
    i < |blocks| && blocks[i].keyword.Counts() && Gates(Tags(blocks[i])) && !GatedBy(blocks, i)
  }

  function SkippedScenarios(blocks: seq<Block>): set<nat> {
    set i | 0 <= i < |blocks| && IsSkipped(blocks, i)
  }

  /** How often each skipped scenario carries `tag`. */
  function Carried(blocks: seq<Block>, tag: string): seq<nat> {
    seq(|blocks|, i requires 0 <= i < |blocks| =>
      if IsSkipped(blocks, i) then multiset(Tags(blocks[i]))[tag] else 0)
  }

  // ------------------------------------------------------------ the line loop as a fold

  datatype Scan = Scan(parsed: ParsedFeature, pending: seq<string>, seen: bool)

  const NOTHING_READ: Scan := Scan(ParsedFeature(0, 0, false, [], map[]), [], false)

  function StepLine(st: Scan, line: Line): Scan {
    match line.kind
    case Skip => st
    case Other => st
    case Tags => st.(pending := st.pending + line.tags)
    case FeatureOrRule =>
      if st.seen then st.(pending := [])
      else Scan(st.parsed.(featureTags := st.pending, featureLevelSkipped := AnySkipTag(st.pending)), [], true)
    case ScenarioStart =>
      var more := st.parsed.(totalScenarios := st.parsed.totalScenarios + 1);
      if st.parsed.featureLevelSkipped || !AnySkipTag(st.pending) then Scan(more, [], st.seen)
      else
        Scan(more.(scenarioSkipped := st.parsed.scenarioSkipped + 1,
                   scenarioByTag := AddCounts(st.parsed.scenarioByTag, SkipCounts(st.pending))), [], st.seen)
    case Background => st.(pending := [])
  }

  function ScanLines(st: Scan, lines: seq<Line>): Scan
    decreases |lines|
  {
    if lines == [] then st else ScanLines(StepLine(st, lines[0]), lines[1..])
  }

  lemma {:induction false} StepReaches(lines: seq<Line>, i: nat, st: Scan)
    requires i < |lines| && Reached(lines, i, st.parsed, st.pending, st.seen)
    ensures var next := StepLine(st, lines[i]);
      Reached(lines, i + 1, next.parsed, next.pending, next.seen)
  {
    PendingAfter(lines, i);
    FeatureAfter(lines, i);
    ParsedAfter(lines, i);
  }

  lemma {:induction false} ScanReaches(lines: seq<Line>, i: nat, st: Scan)
    requires i <= |lines| && Reached(lines, i, st.parsed, st.pending, st.seen)
    ensures ScanLines(st, lines[i..]).parsed == Parsed(lines)
    decreases |lines| - i
  {
    if i < |lines| {
      StepReaches(lines, i, st);
      assert lines[i..][1..] == lines[i + 1..];
      ScanReaches(lines, i + 1, StepLine(st, lines[i]));
    }
  }

  lemma {:induction false} ParsedIsScan(lines: seq<Line>)
    ensures Parsed(lines) == ScanLines(NOTHING_READ, lines).parsed
  {
    assert Reached(lines, 0, NOTHING_READ.parsed, [], false);
    assert lines[0..] == lines;
    ScanReaches(lines, 0, NOTHING_READ);
  }

  lemma {:induction false} ScanAppend(st: Scan, a: seq<Line>, b: seq<Line>)
    ensures ScanLines(st, a + b) == ScanLines(ScanLines(st, a), b)
    decreases |a|
  {
    if a == [] {
      assert a + b == b;
    } else {
      assert (a + b)[1..] == a[1..] + b;
      ScanAppend(StepLine(st, a[0]), a[1..], b);
    }
  }

  lemma {:induction false} ScanNext(st: Scan, raw: string, rest: seq<string>)
    ensures ScanLines(st, ReadAll([raw] + rest)) == ScanLines(StepLine(st, ReadLine(raw)), ReadAll(rest))
  {
    assert ReadAll([raw] + rest) == [ReadLine(raw)] + ReadAll(rest);
    assert ([ReadLine(raw)] + ReadAll(rest))[1..] == ReadAll(rest);
  }

  lemma {:induction false} ReadAppend(a: seq<string>, b: seq<string>)
    ensures ReadAll(a + b) == ReadAll(a) + ReadAll(b)
  {
  }

  // ------------------------------------------------------------ reading one line

  function KindOf(k: Keyword): LineKind {
    if k.Opens() then FeatureOrRule else if k.Counts() then ScenarioStart else LineKind.Background
  }

  /** The lines that mean something start with different characters. */
  lemma {:induction false} FirstCharacters(t: string)
    requires t != ""
    ensures StartsWith(t, "#") ==> t[0] == '#'
    ensures StartsWith(t, "@") ==> t[0] == '@'
    ensures StartsWith(t, "Feature:") ==> t[0] == 'F'
    ensures StartsWith(t, "Rule:") ==> t[0] == 'R'
    ensures StartsWith(t, "Scenario:") || StartsWith(t, "Scenario Outline:") ==> t[0] == 'S'
    ensures StartsWith(t, "Example:") ==> t[0] == 'E'
    ensures StartsWith(t, "Background:") ==> t[0] == 'B'
  {
  }

  lemma {:induction false} ClassifyKeyword(t: string, k: Keyword)
    requires k.Text() <= t
    ensures Classify(t) == KindOf(k)
  {
    FirstCharacters(t);
    assert t[0] == k.Text()[0];
  }

  /** Whatever the title and the indentation. */
  lemma {:induction false} ReadKeyword(indent: string, k: Keyword, title: string)
    requires AllSpace(indent)
    ensures ReadLine(indent + k.Text() + title) == Line(KindOf(k), [])
  {
    assert Framed(k.Text());
    TrimKeeps(indent, k.Text(), title);
    ClassifyKeyword(Trim(indent + k.Text() + title), k);
  }

  function Head(f: Filler): string {
    match f
    case Blank => ""
    case Comment(_) => "#"
    case Given(_) => "Given"
    case When(_) => "When"
    case Then(_) => "Then"
    case And(_) => "And"
    case Cell(_) => "|"
  }

  lemma {:induction false} ClassifyFiller(t: string, f: Filler)
    requires Head(f) <= t && (f.Blank? ==> t == "")
    ensures Classify(t) in {Skip, Other}
  {
    if !f.Blank? {
      FirstCharacters(t);
      assert t[0] == Head(f)[0];
    }
  }

  lemma {:induction false} TrimFiller(indent: string, f: Filler)
    requires AllSpace(indent)
    ensures Head(f) <= Trim(indent + f.Text()) && (f.Blank? ==> Trim(indent + f.Text()) == "")
  {
    if f.Blank? {
      TrimStartSkips(indent, "");
    } else {
      assert Framed(Head(f));
      assert f.Text() == Head(f) + f.text;
      assert indent + f.Text() == indent + Head(f) + f.text;
      TrimKeeps(indent, Head(f), f.text);
    }
  }

  lemma {:induction false} ReadFiller(indent: string, f: Filler)
    requires AllSpace(indent)
    ensures ReadLine(indent + f.Text()).kind in {Skip, Other} && ReadLine(indent + f.Text()).tags == []
  {
    TrimFiller(indent, f);
    ClassifyFiller(Trim(indent + f.Text()), f);
  }

  function Texts(ts: seq<Token>): seq<string> {
    if ts == [] then [] else [TokenText(ts[0])] + Texts(ts[1..])
  }

  predicate GoodTokens(ts: seq<Token>) {
    forall i :: 0 <= i < |ts| ==> GoodToken(ts[i])
  }

  /** A token at the front of what is to be split. */
  lemma {:induction false} SplitFirst(token: string, rest: string)
    requires token != "" && Solid(token) && (rest == "" || IsSpace(rest[0]))
    ensures SplitWhitespace(token + rest) == [token] + SplitWhitespace(rest)
  {
    TokenThenSpace(token, rest);
    var s := token + rest;
    assert s[0] == token[0];
    assert s[..|token|] == token && s[|token|..] == rest;
  }

  lemma {:induction false} SplitAfterSpace(s: string)
    ensures SplitWhitespace(" " + s) == SplitWhitespace(s)
  {
    assert (" " + s)[1..] == s && (" " + s)[0] == ' ';
  }

  lemma {:induction false} TokensSpaced(ts: seq<Token>)
    ensures Tokens(ts) == "" || IsSpace(Tokens(ts)[0])
  {
    if ts != [] { assert Tokens(ts)[0] == ' '; }
  }

  lemma {:induction false} SplitTokens(ts: seq<Token>)
    requires GoodTokens(ts)
    ensures SplitWhitespace(Tokens(ts)) == Texts(ts)
  {
    if ts != [] {
      var token, rest := TokenText(ts[0]), Tokens(ts[1..]);
      assert GoodToken(ts[0]);
      SplitTokens(ts[1..]);
      TokensSpaced(ts[1..]);
      assert token != "" && Solid(token);
      SplitFirst(token, rest);
      SplitAfterSpace(token + rest);
      assert Tokens(ts) == " " + (token + rest);
    }
  }

  lemma {:induction false} TokensEndSolid(ts: seq<Token>)
    requires GoodTokens(ts)
    ensures Tokens(ts) == "" || !IsSpace(Tokens(ts)[|Tokens(ts)| - 1])
  {
    if ts != [] {
      assert GoodToken(ts[0]);
      TokensEndSolid(ts[1..]);
      var token := TokenText(ts[0]);
      assert !IsSpace(token[|token| - 1]);
    }
  }

  lemma {:induction false} OnlyTagsOfTexts(ts: seq<Token>)
    requires GoodTokens(ts)
    ensures OnlyTags(Texts(ts)) == TagNames(ts)
  {
    if ts != [] {
      assert GoodToken(ts[0]);
      OnlyTagsOfTexts(ts[1..]);
    }
  }

  lemma {:induction false} TrimTagLine(indent: string, first: string, rest: seq<Token>)
    requires AllSpace(indent) && Solid(first) && GoodTokens(rest)
    ensures var line := "@" + first + Tokens(rest);
      Trim(indent + line) == line && line[0] == '@'
  {
    var token, line := "@" + first, "@" + first + Tokens(rest);
    TokensEndSolid(rest);
    assert forall i :: 0 < i < |token| ==> token[i] == first[i - 1];
    assert !IsSpace(token[|token| - 1]);
    assert Framed(line);
    TrimKeeps(indent, line, "");
    assert line + "" == line && indent + line + "" == indent + line;
  }

  lemma {:induction false} ExtractTagLine(first: string, rest: seq<Token>)
    requires Solid(first) && GoodTokens(rest)
    ensures ExtractTags("@" + first + Tokens(rest)) == ["@" + first] + TagNames(rest)
  {
    var token := "@" + first;
    assert forall i :: 0 < i < |token| ==> token[i] == first[i - 1];
    SplitTokens(rest);
    TokensSpaced(rest);
    SplitFirst(token, Tokens(rest));
    OnlyTagsOfTexts(rest);
    assert ([token] + Texts(rest))[1..] == Texts(rest);
  }

  lemma {:induction false} ReadTagLine(indent: string, first: string, rest: seq<Token>)
    requires AllSpace(indent) && Solid(first) && GoodTokens(rest)
    ensures ReadLine(indent + ("@" + first + Tokens(rest))) == Line(LineKind.Tags, ["@" + first] + TagNames(rest))
  {
    TrimTagLine(indent, first, rest);
    FirstCharacters("@" + first + Tokens(rest));
    ExtractTagLine(first, rest);
  }

  // ------------------------------------------------------------ reading a block

  function WithTags(st: Scan, more: seq<string>): Scan {
    st.(pending := st.pending + more)
  }

  lemma {:induction false} ReadAbove(st: Scan, indent: string, a: Above)
    requires AllSpace(indent) && GoodAbove(a)
    ensures StepLine(st, ReadLine(indent + AboveText(a))) == WithTags(st, TagsOn(a))
  {
    match a
    case TagLine(first, rest) => ReadTagLine(indent, first, rest);
    case Between(filler) =>
      ReadFiller(indent, filler);
      assert st.pending + [] == st.pending;
  }

  lemma {:induction false} TagsInTurn(st: Scan, a: seq<string>, b: seq<string>)
    ensures WithTags(WithTags(st, a), b) == WithTags(st, a + b)
  {
    assert st.pending + a + b == st.pending + (a + b);
  }

  lemma {:induction false} ScanAbove(st: Scan, indent: string, above: seq<Above>)
    requires AllSpace(indent) && forall i :: 0 <= i < |above| ==> GoodAbove(above[i])
    ensures ScanLines(st, ReadAll(AboveLines(indent, above))) == WithTags(st, AboveTags(above))
    decreases |above|
  {
    if above == [] {
      assert st.pending + [] == st.pending;
    } else {
      ReadAbove(st, indent, above[0]);
      ScanNext(st, indent + AboveText(above[0]), AboveLines(indent, above[1..]));
      ScanAbove(WithTags(st, TagsOn(above[0])), indent, above[1..]);
      TagsInTurn(st, TagsOn(above[0]), AboveTags(above[1..]));
    }
  }

  lemma {:induction false} ScanBody(st: Scan, indent: string, body: seq<Filler>)
    requires AllSpace(indent)
    ensures ScanLines(st, ReadAll(BodyLines(indent, body))) == st
    decreases |body|
  {
    if body != [] {
      ReadFiller(indent, body[0]);
      ScanNext(st, indent + body[0].Text(), BodyLines(indent, body[1..]));
      ScanBody(st, indent, body[1..]);
    }
  }

  function BlockStep(st: Scan, b: Block): Scan {
    StepLine(WithTags(st, Tags(b)), Line(KindOf(b.keyword), []))
  }

  lemma {:induction false} ScanBlock(st: Scan, b: Block)
    requires Good(b)
    ensures ScanLines(st, ReadAll(BlockLines(b))) == BlockStep(st, b)
  {
    var above, body := AboveLines(b.indent, b.above), BodyLines(b.indent, b.body);
    var head := [b.indent + b.keyword.Text() + b.title];
    ReadAppend(above + head, body);
    ReadAppend(above, head);
    ScanAppend(st, ReadAll(above + head), ReadAll(body));
    ScanAppend(st, ReadAll(above), ReadAll(head));
    ScanAbove(st, b.indent, b.above);
    ReadKeyword(b.indent, b.keyword, b.title);
    assert ReadAll(head) == [Line(KindOf(b.keyword), [])];
    ScanBody(BlockStep(st, b), b.indent, b.body);
  }

  function ScanBlocks(blocks: seq<Block>): Scan {
    if blocks == [] then NOTHING_READ else BlockStep(ScanBlocks(blocks[..|blocks| - 1]), blocks[|blocks| - 1])
  }

  predicate AllGood(blocks: seq<Block>) {
    forall i :: 0 <= i < |blocks| ==> Good(blocks[i])
  }

  lemma {:induction false} ScanFile(blocks: seq<Block>)
    requires AllGood(blocks)
    ensures ScanLines(NOTHING_READ, ReadAll(FileLines(blocks))) == ScanBlocks(blocks)
  {
    if blocks != [] {
      var front, last := blocks[..|blocks| - 1], blocks[|blocks| - 1];
      ScanFile(front);
      ReadAppend(FileLines(front), BlockLines(last));
      ScanAppend(NOTHING_READ, ReadAll(FileLines(front)), ReadAll(BlockLines(last)));
      ScanBlock(ScanBlocks(front), last);
    }
  }

  // ------------------------------------------------------------ what is counted

  lemma {:induction false} SkipsIff(tag: string)
    ensures Skips(tag) <==> IsSkipTag(tag)
  {
  }

  lemma {:induction false} GatesIff(tags: seq<string>)
    ensures Gates(tags) <==> AnySkipTag(tags)
  {
  }

  /** What one block adds. */
  lemma {:induction false} BlockAdds(st: Scan, b: Block)
    requires st.pending == []
    ensures var next, tags := BlockStep(st, b), Tags(b);
      var skipped := b.keyword.Counts() && AnySkipTag(tags) && !st.parsed.featureLevelSkipped;
      && next.pending == [] && (next.seen <==> st.seen || b.keyword.Opens())
      && next.parsed.totalScenarios == st.parsed.totalScenarios + (if b.keyword.Counts() then 1 else 0)
      && next.parsed.scenarioSkipped == st.parsed.scenarioSkipped + (if skipped then 1 else 0)
      && next.parsed.scenarioByTag ==
           (if skipped then AddCounts(st.parsed.scenarioByTag, SkipCounts(tags)) else st.parsed.scenarioByTag)
      && next.parsed.featureTags == (if b.keyword.Opens() && !st.seen then tags else st.parsed.featureTags)
      && next.parsed.featureLevelSkipped ==
           (if b.keyword.Opens() && !st.seen then AnySkipTag(tags) else st.parsed.featureLevelSkipped)
  {
    var pending := WithTags(st, Tags(b));
    assert pending == st.(pending := Tags(b)) by {
      assert [] + Tags(b) == Tags(b);
    }
    assert BlockStep(st, b) == StepLine(st.(pending := Tags(b)), Line(KindOf(b.keyword), []));
  }

  lemma {:induction false} NothingPends(blocks: seq<Block>)
    ensures ScanBlocks(blocks).pending == []
  {
  }

  lemma {:induction false} HeadSnoc(blocks: seq<Block>, f: nat)
    requires blocks != [] && f < |blocks| - 1
    ensures IsHead(blocks, f) <==> IsHead(blocks[..|blocks| - 1], f)
  {
    var front := blocks[..|blocks| - 1];
    assert forall j :: 0 <= j < |front| ==> front[j] == blocks[j];
  }

  ghost predicate HasHead(blocks: seq<Block>) {
    exists f: nat :: IsHead(blocks, f)
  }

  lemma {:induction false} NoHeadNoOpening(blocks: seq<Block>)
    requires !HasHead(blocks)
    ensures forall j :: 0 <= j < |blocks| ==> !blocks[j].keyword.Opens()
  {
    if blocks != [] {
      var n := |blocks| - 1;
      var front := blocks[..n];
      forall f: nat | f < n ensures !IsHead(front, f) {
        HeadSnoc(blocks, f);
      }
      NoHeadNoOpening(front);
      assert forall j :: 0 <= j < n ==> blocks[j] == front[j];
      assert !IsHead(blocks, n);
    }
  }

  /** The last block is the first feature or rule, or that is an earlier one. */
  lemma {:induction false} HeadAtLast(blocks: seq<Block>)
    requires blocks != []
    ensures var n := |blocks| - 1;
      && (forall f: nat :: f < n ==> (IsHead(blocks, f) <==> IsHead(blocks[..n], f)))
      && (IsHead(blocks, n) <==> !HasHead(blocks[..n]) && blocks[n].keyword.Opens())
      && (HasHead(blocks) <==> HasHead(blocks[..n]) || blocks[n].keyword.Opens())
  {
    var n := |blocks| - 1;
    var front := blocks[..n];
    forall f: nat | f < n ensures IsHead(blocks, f) <==> IsHead(front, f) {
      HeadSnoc(blocks, f);
    }
    if f: nat :| IsHead(front, f) {
      assert IsHead(blocks, f);
    } else {
      NoHeadNoOpening(front);
      assert forall j :: 0 <= j < n ==> blocks[j] == front[j];
      assert IsHead(blocks, n) <==> blocks[n].keyword.Opens();
    }
  }

  /** The feature-level tags are those of the first feature or rule. */
  lemma {:induction false} HeadTags(blocks: seq<Block>)
    ensures var st := ScanBlocks(blocks);
      && (st.seen <==> HasHead(blocks))
      && (!st.seen ==> st.parsed.featureTags == [] && !st.parsed.featureLevelSkipped)
      && (forall f: nat :: IsHead(blocks, f) ==>
            && st.parsed.featureTags == Tags(blocks[f])
            && (st.parsed.featureLevelSkipped <==> Gates(Tags(blocks[f]))))
  {
    if blocks != [] {
      var n := |blocks| - 1;
      HeadTags(blocks[..n]);
      NothingPends(blocks[..n]);
      BlockAdds(ScanBlocks(blocks[..n]), blocks[n]);
      GatesIff(Tags(blocks[n]));
      HeadAtLast(blocks);
    }
  }

  lemma {:induction false} GatedByIsKnown(blocks: seq<Block>)
    ensures ScanBlocks(blocks).parsed.featureLevelSkipped <==> GatedBy(blocks, |blocks|)
  {
    HeadTags(blocks);
  }

  lemma {:induction false} PrefixDecides(blocks: seq<Block>, n: nat, i: nat)
    requires i <= n <= |blocks|
    ensures GatedBy(blocks[..n], i) <==> GatedBy(blocks, i)
    ensures i < n ==> (IsSkipped(blocks[..n], i) <==> IsSkipped(blocks, i))
  {
    var front := blocks[..n];
    assert forall j :: 0 <= j < n ==> front[j] == blocks[j];
    assert forall f: nat :: f < i ==> (IsHead(front, f) <==> IsHead(blocks, f));
  }

  /** What the last block adds to what is counted. */
  lemma {:induction false} LastBlockCounts(blocks: seq<Block>)
    requires blocks != []
    ensures var n := |blocks| - 1;
      && Scenarios(blocks) == Scenarios(blocks[..n]) + (if blocks[n].keyword.Counts() then {n} else {})
      && SkippedScenarios(blocks) == SkippedScenarios(blocks[..n]) + (if IsSkipped(blocks, n) then {n} else {})
      && n !in Scenarios(blocks[..n]) && n !in SkippedScenarios(blocks[..n])
      && (IsSkipped(blocks, n) <==>
            && blocks[n].keyword.Counts() && AnySkipTag(Tags(blocks[n]))
            && !ScanBlocks(blocks[..n]).parsed.featureLevelSkipped)
  {
    var n := |blocks| - 1;
    forall i | 0 <= i < n ensures IsSkipped(blocks[..n], i) <==> IsSkipped(blocks, i) {
      PrefixDecides(blocks, n, i);
    }
    PrefixDecides(blocks, n, n);
    GatedByIsKnown(blocks[..n]);
    GatesIff(Tags(blocks[n]));
  }

  lemma {:induction false} CountsAddUp(blocks: seq<Block>)
    ensures ScanBlocks(blocks).parsed.totalScenarios == |Scenarios(blocks)|
    ensures ScanBlocks(blocks).parsed.scenarioSkipped == |SkippedScenarios(blocks)|
  {
    if blocks != [] {
      var n := |blocks| - 1;
      CountsAddUp(blocks[..n]);
      LastBlockCounts(blocks);
      NothingPends(blocks[..n]);
      BlockAdds(ScanBlocks(blocks[..n]), blocks[n]);
    }
  }

  lemma {:induction false} OccurrencesAreMultiplicity(tags: seq<string>, tag: string)
    ensures Occurrences(tags, tag) == multiset(tags)[tag]
  {
    if tags != [] {
      var n := |tags| - 1;
      OccurrencesAreMultiplicity(tags[..n], tag);
      assert tags == tags[..n] + [tags[n]];
    }
  }

  lemma {:induction false} CarriedSnoc(blocks: seq<Block>, tag: string)
    requires blocks != []
    ensures var n := |blocks| - 1;
      Carried(blocks, tag)[..n] == Carried(blocks[..n], tag)
  {
    var n := |blocks| - 1;
    forall i | 0 <= i < n ensures Carried(blocks, tag)[i] == Carried(blocks[..n], tag)[i] {
      PrefixDecides(blocks, n, i);
    }
  }

  lemma {:induction false} TagsAddUp(blocks: seq<Block>, tag: string)
    ensures Get(ScanBlocks(blocks).parsed.scenarioByTag, tag) == if Skips(tag) then Sum(Carried(blocks, tag)) else 0
  {
    if blocks != [] {
      var n := |blocks| - 1;
      TagsAddUp(blocks[..n], tag);
      LastBlockCounts(blocks);
      CarriedSnoc(blocks, tag);
      NothingPends(blocks[..n]);
      BlockAdds(ScanBlocks(blocks[..n]), blocks[n]);
      SkipCountsCountsOccurrences(Tags(blocks[n]), tag);
      OccurrencesAreMultiplicity(Tags(blocks[n]), tag);
    }
  }

  /** Writing blocks down and parsing the text counts what is in the blocks: the
      scenarios, those skipped by a tag of their own, the tags of the first feature or
      rule, whether they gate the file, and how often skipped scenarios carry each skip
      tag. */
  lemma {:induction false} WrittenFileIsCounted(blocks: seq<Block>, tag: string)
    requires AllGood(blocks)
    ensures var p := Parsed(ReadAll(FileLines(blocks)));
      && p.totalScenarios == |Scenarios(blocks)|
      && p.scenarioSkipped == |SkippedScenarios(blocks)|
      && (p.featureLevelSkipped <==> GatedBy(blocks, |blocks|))
      && (forall f: nat :: IsHead(blocks, f) ==> p.featureTags == Tags(blocks[f]))
      && (!HasHead(blocks) ==> p.featureTags == [])
      && Get(p.scenarioByTag, tag) == (if Skips(tag) then Sum(Carried(blocks, tag)) else 0)
  {
    ParsedIsScan(ReadAll(FileLines(blocks)));
    ScanFile(blocks);
    CountsAddUp(blocks);
    HeadTags(blocks);
    GatedByIsKnown(blocks);
    TagsAddUp(blocks, tag);
  }
}
