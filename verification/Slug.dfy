/** Profile slugs: the canonicaliser from display names and the validator.
    Everything works on UTF-8 bytes; a byte of a multi-byte character is a
    separator like any other. */
module Slug {
  import opened Text

  const HYPHEN: Byte := 45
  const MAX_SLUG_LEN := 60
  const DERIVE_INPUT_BYTE_CAP := 1024

  /** "demo", "meta" and "sessions". */
  const RESERVED: seq<seq<Byte>> := [
    [100, 101, 109, 111], [109, 101, 116, 97], [115, 101, 115, 115, 105, 111, 110, 115]]

  datatype SlugError =
    | Empty
    | TooLong(len: nat, max: nat)
    | Reserved(slug: seq<Byte>)
    | InvalidChars(slug: seq<Byte>)
    | HyphenLayout(slug: seq<Byte>)
    | Unparseable(input: seq<Byte>)

  type SlugResult = Result<seq<Byte>, SlugError>

  predicate IsLower(b: Byte) { 97 <= b <= 122 }

  predicate IsDigit(b: Byte) { 48 <= b <= 57 }

  predicate IsAlnum(b: Byte) { IsLower(b) || IsDigit(b) || 65 <= b <= 90 }

  function ToLower(b: Byte): Byte {
    if 65 <= b <= 90 then b + 32 else b
  }

  function LowerAll(s: seq<Byte>): seq<Byte> {
    seq(|s|, i requires 0 <= i < |s| => ToLower(s[i]))
  }

  // ------------------------------------------------------------ the validator

  predicate SlugBytes(s: seq<Byte>) {
    forall i :: 0 <= i < |s| ==> IsLower(s[i]) || IsDigit(s[i]) || s[i] == HYPHEN
  }

  predicate SingleHyphens(s: seq<Byte>) {
    forall i :: 0 < i < |s| ==> s[i] != HYPHEN || s[i - 1] != HYPHEN
  }

  /** `Slug::new`: the first rule violated. */
  function NewSlug(s: seq<Byte>): SlugResult {
    if s == [] then Err(Empty)
    else if |s| > MAX_SLUG_LEN then Err(TooLong(|s|, MAX_SLUG_LEN))
    else if !SlugBytes(s) then Err(InvalidChars(s))
    else if s[0] == HYPHEN || s[|s| - 1] == HYPHEN || !SingleHyphens(s) then Err(HyphenLayout(s))
    else if s in RESERVED then Err(Reserved(s))
    else Ok(s)
  }

  // ------------------------------------------------------------ what is derived

  /** Length of the leading run of alphanumeric bytes. */
  function RunLength(s: seq<Byte>): (n: nat)
    ensures n <= |s| && (n < |s| ==> !IsAlnum(s[n]))
    ensures forall i :: 0 <= i < n ==> IsAlnum(s[i])
    ensures s != [] && IsAlnum(s[0]) ==> 0 < n
  {
    if s != [] && IsAlnum(s[0]) then 1 + RunLength(s[1..]) else 0
  }

  /** The maximal alphanumeric runs of `s`, in order. */
  function Words(s: seq<Byte>): seq<seq<Byte>>
    decreases |s|
  {
    if s == [] then []
    else if IsAlnum(s[0]) then [s[..RunLength(s)]] + Words(s[RunLength(s)..])
    else Words(s[1..])
  }

  function Join(words: seq<seq<Byte>>): seq<Byte> {
    if words == [] then []
    else if |words| == 1 then words[0]
    else words[0] + [HYPHEN] + Join(words[1..])
  }

  /** The words, lowercased and joined by single hyphens. */
  function Canon(s: seq<Byte>): seq<Byte> {
    LowerAll(Join(Words(s)))
  }

  function Derive(input: seq<Byte>): SlugResult {
    if |input| > DERIVE_INPUT_BYTE_CAP then Err(TooLong(|input|, MAX_SLUG_LEN))
    else if Canon(input) == [] then Err(Unparseable(input))
    else NewSlug(Canon(input))
  }

  // ------------------------------------------------------------ how it is derived

  /** What the byte loop has in its buffer after `s`. */
  function Squash(s: seq<Byte>): seq<Byte> {
    if s == [] then []
    else
      var buf, b := Squash(s[..|s| - 1]), s[|s| - 1];
      if IsAlnum(b) then buf + [ToLower(b)]
      else if buf != [] && buf[|buf| - 1] == HYPHEN then buf
      else buf + [HYPHEN]
  }

  function TrimHyphensStart(s: seq<Byte>): seq<Byte> {
    if s != [] && s[0] == HYPHEN then TrimHyphensStart(s[1..]) else s
  }

  function TrimHyphensEnd(s: seq<Byte>): seq<Byte> {
    if s != [] && s[|s| - 1] == HYPHEN then TrimHyphensEnd(s[..|s| - 1]) else s
  }

  function TrimHyphens(s: seq<Byte>): seq<Byte> {
    TrimHyphensEnd(TrimHyphensStart(s))
  }

  method DeriveSlug(input: seq<Byte>) returns (r: SlugResult)
    ensures r == Derive(input)
  {
    if |input| > DERIVE_INPUT_BYTE_CAP {
      return Err(TooLong(|input|, MAX_SLUG_LEN));
    }
    var buf: seq<Byte> := [];
    var lastWasHyphen := false;
    for i := 0 to |input|
      invariant buf == Squash(input[..i])
      invariant lastWasHyphen <==> buf != [] && buf[|buf| - 1] == HYPHEN
    {
      assert input[..i + 1][..i] == input[..i];
      var ch := ToLower(input[i]);
      if IsLower(ch) || IsDigit(ch) {
        buf := buf + [ch];
        lastWasHyphen := false;
      } else if !lastWasHyphen {
        buf := buf + [HYPHEN];
        lastWasHyphen := true;
      }
    }
    assert input[..|input|] == input;
    TrimmedBufferIsCanon(input);
    var trimmed := TrimHyphens(buf);
    if trimmed == [] {
      return Err(Unparseable(input));
    }
    r := NewSlug(trimmed);
  }

  // ------------------------------------------------------------ words of a concatenation

  predicate AllAlnum(s: seq<Byte>) {
    forall i :: 0 <= i < |s| ==> IsAlnum(s[i])
  }

  predicate NoAlnum(s: seq<Byte>) {
    forall i :: 0 <= i < |s| ==> !IsAlnum(s[i])
  }

  lemma {:induction false} RunLengthStops(s: seq<Byte>, n: nat)
    requires n <= |s| && AllAlnum(s[..n]) && (n < |s| ==> !IsAlnum(s[n]))
    ensures RunLength(s) == n
  {
    forall i | 0 <= i < n
      ensures IsAlnum(s[i])
    {
      assert s[..n][i] == s[i];
    }
  }

  /** A separator splits the words. */
  lemma {:induction false} WordsSplit(a: seq<Byte>, x: Byte, b: seq<Byte>)
    requires !IsAlnum(x)
    ensures Words(a + [x] + b) == Words(a) + Words(b)
    decreases |a|
  {
    var s := a + [x] + b;
    if a == [] {
      assert s[1..] == b;
    } else if !IsAlnum(a[0]) {
      assert s[1..] == a[1..] + [x] + b;
      WordsSplit(a[1..], x, b);
    } else {
      var n := RunLength(a);
      assert s[..n] == a[..n];
      assert n == |a| ==> s[n] == x;
      RunLengthStops(s, n);
      assert s[n..] == a[n..] + [x] + b;
      WordsSplit(a[n..], x, b);
    }
  }

  lemma {:induction false} WordsOfRun(w: seq<Byte>)
    requires w != [] && AllAlnum(w)
    ensures Words(w) == [w]
  {
    assert w[..|w|] == w;
    RunLengthStops(w, |w|);
    assert Words(w[|w|..]) == [];
  }

  lemma {:induction false} WordsOfSeparators(s: seq<Byte>)
    requires NoAlnum(s)
    ensures Words(s) == []
  {
    if s != [] { WordsOfSeparators(s[1..]); }
  }

  lemma {:induction false} JoinAppend(a: seq<seq<Byte>>, b: seq<seq<Byte>>)
    ensures Join(a + b) == if a == [] then Join(b) else if b == [] then Join(a) else Join(a) + [HYPHEN] + Join(b)
  {
    if a == [] {
      assert a + b == b;
    } else if b == [] {
      assert a + b == a;
    } else {
      assert (a + b)[1..] == a[1..] + b;
      JoinAppend(a[1..], b);
      if |a| == 1 { assert a[1..] == []; }
    }
  }

  lemma {:induction false} LowerAppend(a: seq<Byte>, b: seq<Byte>)
    ensures LowerAll(a + b) == LowerAll(a) + LowerAll(b)
  {
  }

  lemma {:induction false} CanonAppend(a: seq<seq<Byte>>, b: seq<seq<Byte>>)
    requires a != [] && b != []
    ensures LowerAll(Join(a + b)) == LowerAll(Join(a)) + [HYPHEN] + LowerAll(Join(b))
  {
    JoinAppend(a, b);
    LowerAppend(Join(a) + [HYPHEN], Join(b));
    LowerAppend(Join(a), [HYPHEN]);
  }

  // ------------------------------------------------------------ shape of the canonical form

  /** Non-empty, slug bytes only, hyphens only single and only inside. */
  predicate Canonical(c: seq<Byte>) {
    c != [] && SlugBytes(c) && c[0] != HYPHEN && c[|c| - 1] != HYPHEN && SingleHyphens(c)
  }

  predicate GoodWords(words: seq<seq<Byte>>) {
    forall i :: 0 <= i < |words| ==> words[i] != [] && AllAlnum(words[i])
  }

  lemma {:induction false} WordsAreGood(s: seq<Byte>)
    ensures GoodWords(Words(s))
    decreases |s|
  {
    if s != [] {
      if IsAlnum(s[0]) {
        WordsAreGood(s[RunLength(s)..]);
      } else {
        WordsAreGood(s[1..]);
      }
    }
  }

  /** A lowercased word, a hyphen and a canonical string make a canonical string. */
  lemma {:induction false} WordThenCanonical(head: seq<Byte>, tail: seq<Byte>)
    requires head != [] && forall i :: 0 <= i < |head| ==> IsLower(head[i]) || IsDigit(head[i])
    requires Canonical(tail)
    ensures Canonical(head + [HYPHEN] + tail)
  {
    var c, k := head + [HYPHEN] + tail, |head| + 1;
    assert forall i :: 0 <= i < |head| ==> c[i] == head[i];
    assert forall i :: k <= i < |c| ==> c[i] == tail[i - k];
    forall i | 0 < i < |c| ensures c[i] != HYPHEN || c[i - 1] != HYPHEN {
      if k < i { assert tail[i - k] != HYPHEN || tail[i - k - 1] != HYPHEN; }
    }
  }

  lemma {:induction false} JoinIsCanonical(words: seq<seq<Byte>>)
    requires words != [] && GoodWords(words)
    ensures Canonical(LowerAll(Join(words)))
  {
    var head := LowerAll(words[0]);
    assert forall i :: 0 <= i < |head| ==> IsLower(head[i]) || IsDigit(head[i]);
    if |words| > 1 {
      JoinIsCanonical(words[1..]);
      assert words == words[..1] + words[1..];
      CanonAppend(words[..1], words[1..]);
      WordThenCanonical(head, LowerAll(Join(words[1..])));
    }
  }

  lemma {:induction false} CanonIsCanonical(s: seq<Byte>)
    ensures Canon(s) == [] <==> Words(s) == []
    ensures Canon(s) != [] ==> Canonical(Canon(s))
  {
    WordsAreGood(s);
    if Words(s) != [] { JoinIsCanonical(Words(s)); }
  }

  // ------------------------------------------------------------ the loop computes it

  lemma {:induction false} SquashRun(p: seq<Byte>, w: seq<Byte>)
    requires AllAlnum(w)
    ensures Squash(p + w) == Squash(p) + LowerAll(w)
  {
    if w == [] {
      assert p + w == p;
    } else {
      var v := w[..|w| - 1];
      SquashRun(p, v);
      assert (p + w)[..|p + w| - 1] == p + v;
      assert LowerAll(w) == LowerAll(v) + [ToLower(w[|w| - 1])];
    }
  }

  /** Start of the trailing run of alphanumeric bytes. */
  function TailStart(s: seq<Byte>): (n: nat)
    ensures n <= |s| && AllAlnum(s[n..]) && (0 < n ==> !IsAlnum(s[n - 1]))
  {
    if s != [] && IsAlnum(s[|s| - 1]) then
      var n := TailStart(s[..|s| - 1]);
      assert s[n..] == s[..|s| - 1][n..] + [s[|s| - 1]];
      n
    else |s|
  }

  /** A hyphen, or nothing next to an alphanumeric byte. */
  function Edge(b: Byte): seq<Byte> {
    if IsAlnum(b) then [] else [HYPHEN]
  }

  /** What the loop leaves around the canonical form. */
  function Framed(s: seq<Byte>): seq<Byte> {
    if s == [] then []
    else if Words(s) == [] then [HYPHEN]
    else Edge(s[0]) + Canon(s) + Edge(s[|s| - 1])
  }

  /** The loop's buffer is the canonical form in its frame. */
  ghost predicate Fits(s: seq<Byte>) {
    Squash(s) == Framed(s)
  }

  lemma {:induction false} BufferIsFramed(s: seq<Byte>)
    ensures Fits(s)
    decreases |s|
  {
    if s != [] {
      var n := TailStart(s);
      if n == 0 {
        assert s[0..] == s;
        RunFits(s);
      } else if n == |s| {
        assert s == s[..n - 1] + [s[n - 1]];
        BufferIsFramed(s[..n - 1]);
        SeparatorFits(s[..n - 1], s[n - 1]);
      } else {
        assert s == s[..n - 1] + [s[n - 1]] + s[n..];
        assert s[..n - 1] + [s[n - 1]] == s[..n];
        BufferIsFramed(s[..n]);
        WordFits(s[..n - 1], s[n - 1], s[n..]);
      }
    }
  }

  lemma {:induction false} RunFits(s: seq<Byte>)
    requires s != [] && AllAlnum(s)
    ensures Fits(s)
  {
    assert [] + s == s;
    SquashRun([], s);
    WordsOfRun(s);
  }

  lemma {:induction false} SeparatorFits(q: seq<Byte>, x: Byte)
    requires !IsAlnum(x) && Fits(q)
    ensures Fits(q + [x])
  {
    assert (q + [x])[..|q|] == q;
    FramedSeparator(q, x);
  }

  lemma {:induction false} WordFits(q: seq<Byte>, x: Byte, w: seq<Byte>)
    requires !IsAlnum(x) && w != [] && AllAlnum(w) && Fits(q + [x])
    ensures Fits(q + [x] + w)
  {
    SquashRun(q + [x], w);
    FramedRun(q, x, w);
  }

  lemma {:induction false} WordsAfterSeparator(q: seq<Byte>, x: Byte, w: seq<Byte>)
    requires !IsAlnum(x) && w != [] && AllAlnum(w)
    ensures Words(q + [x]) == Words(q)
    ensures Words(q + [x] + w) == Words(q) + [w]
  {
    WordsSplit(q, x, w);
    WordsSplit(q, x, []);
    assert q + [x] + [] == q + [x] && Words(q) + [] == Words(q);
    WordsOfRun(w);
  }

  lemma {:induction false} CanonWithWord(words: seq<seq<Byte>>, w: seq<Byte>)
    ensures LowerAll(Join(words + [w]))
      == (if words == [] then [] else LowerAll(Join(words)) + [HYPHEN]) + LowerAll(w)
  {
    assert Join([w]) == w;
    if words == [] {
      assert words + [w] == [w];
    } else {
      CanonAppend(words, [w]);
    }
  }

  /** A run after a separator becomes a word of its own. */
  lemma {:induction false} FramedRun(q: seq<Byte>, x: Byte, w: seq<Byte>)
    requires !IsAlnum(x) && w != [] && AllAlnum(w)
    ensures Framed(q + [x] + w) == Framed(q + [x]) + LowerAll(w)
  {
    var p := q + [x];
    WordsAfterSeparator(q, x, w);
    CanonWithWord(Words(q), w);
    assert Words(p) == [] ==> !IsAlnum(p[0]) by {
      EmptyCanonIffNoAlnum(p);
    }
    FrameGrows(p, x, w);
  }

  lemma {:induction false} FrameGrows(p: seq<Byte>, x: Byte, w: seq<Byte>)
    requires p != [] && p[|p| - 1] == x && !IsAlnum(x) && w != [] && AllAlnum(w)
    requires Words(p + w) == Words(p) + [w] && (Words(p) == [] ==> !IsAlnum(p[0]))
    requires Canon(p + w) == (if Words(p) == [] then [] else Canon(p) + [HYPHEN]) + LowerAll(w)
    ensures Framed(p + w) == Framed(p) + LowerAll(w)
  {
    var s := p + w;
    assert |Words(s)| > 0;
    assert s[0] == p[0] && s[|s| - 1] == w[|w| - 1];
    assert Framed(s) == Edge(p[0]) + Canon(s) + Edge(w[|w| - 1]);
    if Words(p) == [] {
      AroundNothing(Edge(p[0]), Canon(s), LowerAll(w));
    } else {
      assert Framed(p) == Edge(p[0]) + Canon(p) + [HYPHEN];
      AroundWord(Edge(p[0]), Canon(p), [HYPHEN], LowerAll(w));
    }
  }

  lemma {:induction false} AroundNothing(lead: seq<Byte>, c: seq<Byte>, w: seq<Byte>)
    requires c == [] + w
    ensures lead + c + [] == lead + w
  {
  }

  lemma {:induction false} AroundWord(lead: seq<Byte>, c: seq<Byte>, h: seq<Byte>, w: seq<Byte>)
    ensures lead + (c + h + w) + [] == lead + c + h + w
  {
  }

  lemma {:induction false} WordsBeforeSeparator(q: seq<Byte>, x: Byte)
    requires !IsAlnum(x)
    ensures Words(q + [x]) == Words(q)
  {
    WordsSplit(q, x, []);
    assert q + [x] + [] == q + [x] && Words(q) + Words([]) == Words(q);
  }

  /** `s`, closed by a hyphen if it is not already. */
  function Closed(s: seq<Byte>): seq<Byte> {
    if s != [] && s[|s| - 1] == HYPHEN then s else s + [HYPHEN]
  }

  lemma {:induction false} ClosedEdges(lead: seq<Byte>, c: seq<Byte>, b: Byte)
    requires c != [] && c[|c| - 1] != HYPHEN
    ensures Closed(lead + c + Edge(b)) == lead + c + [HYPHEN]
  {
    var s := lead + c;
    assert s[|s| - 1] == c[|c| - 1];
    if IsAlnum(b) { assert s + [] == s; }
  }

  /** One more separator changes the frame only. */
  lemma {:induction false} FramedSeparator(q: seq<Byte>, x: Byte)
    requires !IsAlnum(x)
    ensures Framed(q + [x]) == Closed(Framed(q))
  {
    WordsBeforeSeparator(q, x);
    if q != [] && Words(q) != [] {
      CanonIsCanonical(q);
      assert (q + [x])[0] == q[0] && (q + [x])[|q|] == x;
      assert Framed(q + [x]) == Edge(q[0]) + Canon(q) + [HYPHEN];
      ClosedEdges(Edge(q[0]), Canon(q), q[|q| - 1]);
    }
  }

  lemma {:induction false} TrimFrame(c: seq<Byte>, lead: bool, trail: bool)
    requires c != [] && c[0] != HYPHEN && c[|c| - 1] != HYPHEN
    ensures TrimHyphens((if lead then [HYPHEN] else []) + c + (if trail then [HYPHEN] else [])) == c
  {
    var end := c + (if trail then [HYPHEN] else []);
    var s := (if lead then [HYPHEN] else []) + c + (if trail then [HYPHEN] else []);
    if lead { assert s[1..] == end; } else { assert s == end; }
    assert TrimHyphensStart(end) == end;
    assert trail ==> end[..|end| - 1] == c;
    assert TrimHyphensEnd(c) == c;
  }

  /** The loop and the trim leave the canonical form. */
  lemma {:induction false} TrimmedBufferIsCanon(s: seq<Byte>)
    ensures TrimHyphens(Squash(s)) == Canon(s)
  {
    BufferIsFramed(s);
    CanonIsCanonical(s);
    if Words(s) != [] {
      TrimFrame(Canon(s), !IsAlnum(s[0]), !IsAlnum(s[|s| - 1]));
    } else if s != [] {
      assert [HYPHEN][1..] == [] && TrimHyphensStart([HYPHEN]) == [];
    }
  }

  // ------------------------------------------------------------ theorems

  /** Canonicalisation turns a separator run between two names into one hyphen. */
  lemma {:induction false} CanonIsAHomomorphism(a: seq<Byte>, sep: seq<Byte>, b: seq<Byte>)
    requires sep != [] && NoAlnum(sep)
    ensures Canon(a + sep + b) ==
      if Canon(a) == [] then Canon(b) else if Canon(b) == [] then Canon(a) else Canon(a) + [HYPHEN] + Canon(b)
  {
    var rest := sep[1..];
    WordsSplit(a, sep[0], rest + b);
    assert a + sep + b == a + [sep[0]] + (rest + b);
    SeparatorsAddNoWords(rest, b);
    CanonIsCanonical(a);
    CanonIsCanonical(b);
    if Words(a) != [] && Words(b) != [] {
      CanonAppend(Words(a), Words(b));
    } else {
      assert Words(a) + Words(b) == if Words(a) == [] then Words(b) else Words(a);
    }
  }

  lemma {:induction false} SeparatorsAddNoWords(sep: seq<Byte>, b: seq<Byte>)
    requires NoAlnum(sep)
    ensures Words(sep + b) == Words(b)
  {
    if sep == [] {
      assert sep + b == b;
    } else {
      assert (sep + b)[1..] == sep[1..] + b;
      SeparatorsAddNoWords(sep[1..], b);
    }
  }

  lemma {:induction false} SquashKeepsCanonical(c: seq<Byte>)
    requires SlugBytes(c) && SingleHyphens(c)
    ensures Squash(c) == c
  {
    if c != [] {
      var n := |c| - 1;
      SquashKeepsCanonical(c[..n]);
      assert Squash(c[..n]) == c[..n];
      assert 0 < n ==> c[..n][n - 1] == c[n - 1];
      assert c == c[..n] + [c[n]];
    }
  }

  /** Every accepted slug is a fixed point of derivation. */
  lemma {:induction false} AcceptedSlugIsFixedPoint(s: seq<Byte>)
    requires NewSlug(s).Ok?
    ensures Derive(s) == Ok(s)
  {
    SquashKeepsCanonical(s);
    TrimFrame(s, false, false);
    assert [] + s + [] == s;
    TrimmedBufferIsCanon(s);
  }

  lemma {:induction false} DeriveIsIdempotent(input: seq<Byte>)
    requires Derive(input).Ok?
    ensures Derive(input).value == Canon(input)
    ensures Derive(Derive(input).value) == Derive(input)
  {
    AcceptedSlugIsFixedPoint(Canon(input));
  }

  /** Within the input cap derivation has four outcomes, each with its exact cause. */
  lemma {:induction false} DeriveOutcomes(input: seq<Byte>)
    ensures var c, r := Canon(input), Derive(input);
      if |input| > 1024 then r == Err(TooLong(|input|, 60))
      else
        && (r == Err(Unparseable(input)) <==> NoAlnum(input))
        && (r == Err(TooLong(|c|, 60)) <==> |c| > 60)
        && (r == Err(Reserved(c)) <==> IsReserved(c))
        && (r == Ok(c) <==> 0 < |c| <= 60 && !IsReserved(c))
        && (r.Ok? || r.error.Unparseable? || r.error.TooLong? || r.error.Reserved?)
  {
    CanonIsCanonical(input);
    EmptyCanonIffNoAlnum(input);
    ReservedAre(Canon(input));
  }

  /** The bytes of ASCII text. */
  function Ascii(s: string): seq<Byte>
    requires forall i :: 0 <= i < |s| ==> s[i] < 128 as char
  {
    seq(|s|, i requires 0 <= i < |s| => s[i] as Byte)
  }

  predicate IsReserved(s: seq<Byte>) {
    s == Ascii("demo") || s == Ascii("meta") || s == Ascii("sessions")
  }

  lemma {:induction false} ReservedAre(s: seq<Byte>)
    ensures s in RESERVED <==> IsReserved(s)
  {
    assert Ascii("demo") == [100, 101, 109, 111] && Ascii("meta") == [109, 101, 116, 97];
    assert Ascii("sessions") == [115, 101, 115, 115, 105, 111, 110, 115];
  }

  predicate Between(b: Byte, first: char, last: char) {
    first as int <= b as int <= last as int
  }

  /** The bytes of a slug, and the letters and digits a slug is made from. */
  lemma {:induction false} SlugLettersAre(b: Byte)
    ensures IsAlnum(b) <==> Between(b, 'a', 'z') || Between(b, 'A', 'Z') || Between(b, '0', '9')
    ensures Between(b, 'A', 'Z') ==> ToLower(b) as int - 'a' as int == b as int - 'A' as int
    ensures !Between(b, 'A', 'Z') ==> ToLower(b) == b
    ensures SlugBytes([b]) <==> Between(b, 'a', 'z') || Between(b, '0', '9') || b as int == '-' as int
  {
    assert SlugBytes([b]) <==> IsLower([b][0]) || IsDigit([b][0]) || [b][0] == HYPHEN;
  }

  /** What the validator says of a string, with the exact cause of each answer. */
  lemma {:induction false} NewSlugOutcomes(s: seq<Byte>)
    ensures var r := NewSlug(s);
      var laidOut := s != [] && s[0] != HYPHEN && s[|s| - 1] != HYPHEN && SingleHyphens(s);
      && (r == Err(Empty) <==> s == [])
      && (r == Err(TooLong(|s|, 60)) <==> |s| > 60)
      && (r == Err(InvalidChars(s)) <==> 0 < |s| <= 60 && !SlugBytes(s))
      && (r == Err(HyphenLayout(s)) <==> 0 < |s| <= 60 && SlugBytes(s) && !laidOut)
      && (r == Err(Reserved(s)) <==> IsReserved(s))
      && (r == Ok(s) <==> |s| <= 60 && SlugBytes(s) && laidOut && !IsReserved(s))
  {
    ReservedAre(s);
    if IsReserved(s) {
      assert forall i :: 0 <= i < |s| ==> IsLower(s[i]);
    }
  }

  predicate SameButForCase(a: seq<Byte>, b: seq<Byte>) {
    |a| == |b| && forall i :: 0 <= i < |a| ==> ToLower(a[i]) == ToLower(b[i])
  }

  lemma {:induction false} SquashIgnoresCase(a: seq<Byte>, b: seq<Byte>)
    requires SameButForCase(a, b)
    ensures Squash(a) == Squash(b)
  {
    if a != [] {
      var n := |a| - 1;
      SquashIgnoresCase(a[..n], b[..n]);
      assert ToLower(a[n]) == ToLower(b[n]);
    }
  }

  /** Names that differ in the case of letters only have the same slug. */
  lemma {:induction false} CaseDoesNotMatter(a: seq<Byte>, b: seq<Byte>)
    requires SameButForCase(a, b)
    ensures Canon(a) == Canon(b) && (Derive(a).Ok? ==> Derive(b) == Derive(a))
  {
    SquashIgnoresCase(a, b);
    TrimmedBufferIsCanon(a);
    TrimmedBufferIsCanon(b);
  }

  lemma {:induction false} EmptyCanonIffNoAlnum(s: seq<Byte>)
    ensures Words(s) == [] <==> NoAlnum(s)
    decreases |s|
  {
    if s != [] && !IsAlnum(s[0]) {
      EmptyCanonIffNoAlnum(s[1..]);
      assert NoAlnum(s[1..]) ==> NoAlnum([s[0]] + s[1..]);
      assert s == [s[0]] + s[1..];
    }
  }
}
