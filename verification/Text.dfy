/** String primitives shared by the models: whitespace, trimming, ASCII case. */
module Text {

  datatype Option<+T> = None | Some(value: T)

  datatype Result<+T, +E> = Ok(value: T) | Err(error: E)

  newtype Byte = b: int | 0 <= b < 256

  /** The Unicode White_Space property, which `trim` and `split_whitespace` use. */
  predicate IsSpace(c: char) {
    var u := c as int;
    || 0x09 <= u <= 0x0D || u == 0x20 || u == 0x85 || u == 0xA0 || u == 0x1680
    || 0x2000 <= u <= 0x200A || u == 0x2028 || u == 0x2029 || u == 0x202F || u == 0x205F || u == 0x3000
  }

  function TrimStart(s: string): (r: string)
    ensures |r| <= |s| && (r != [] ==> !IsSpace(r[0]))
  {
    if s != [] && IsSpace(s[0]) then TrimStart(s[1..]) else s
  }

  function TrimEnd(s: string): (r: string)
    ensures r <= s && (r != [] ==> !IsSpace(r[|r| - 1]))
  {
    if s != [] && IsSpace(s[|s| - 1]) then TrimEnd(s[..|s| - 1]) else s
  }

  function Trim(s: string): string {
    TrimEnd(TrimStart(s))
  }

  /** The 25 code points of the property, one by one. */
  lemma {:induction false} SpacesAre(c: char)
    ensures IsSpace(c) <==> c as int in {
      0x09, 0x0A, 0x0B, 0x0C, 0x0D, 0x20, 0x85, 0xA0, 0x1680,
      0x2000, 0x2001, 0x2002, 0x2003, 0x2004, 0x2005, 0x2006, 0x2007, 0x2008, 0x2009, 0x200A,
      0x2028, 0x2029, 0x202F, 0x205F, 0x3000}
  {
  }

  /** Not space at either end. */
  predicate Framed(s: string) {
    s != "" && !IsSpace(s[0]) && !IsSpace(s[|s| - 1])
  }

  predicate AllSpace(s: string) {
    forall i :: 0 <= i < |s| ==> IsSpace(s[i])
  }

  lemma {:induction false} TrimStartSkips(pre: string, rest: string)
    requires AllSpace(pre) && (rest == "" || !IsSpace(rest[0]))
    ensures TrimStart(pre + rest) == rest
  {
    if pre == "" {
      assert pre + rest == rest;
    } else {
      assert (pre + rest)[1..] == pre[1..] + rest;
      TrimStartSkips(pre[1..], rest);
    }
  }

  lemma {:induction false} TrimEndKeeps(head: string, tail: string)
    requires Framed(head)
    ensures head <= TrimEnd(head + tail)
    decreases |tail|
  {
    var s := head + tail;
    if tail == "" {
      assert s == head;
    } else if IsSpace(s[|s| - 1]) {
      assert s[..|s| - 1] == head + tail[..|tail| - 1];
      TrimEndKeeps(head, tail[..|tail| - 1]);
    }
  }

  /** Trimming an indented line keeps what it starts with. */
  lemma {:induction false} TrimKeeps(pre: string, head: string, tail: string)
    requires AllSpace(pre) && Framed(head)
    ensures head <= Trim(pre + head + tail) <= head + tail
  {
    assert pre + head + tail == pre + (head + tail);
    TrimStartSkips(pre, head + tail);
    TrimEndKeeps(head, tail);
  }

  /** What trimming takes off. */
  lemma {:induction false} TrimTakes(s: string) returns (pre: string, post: string)
    ensures s == pre + Trim(s) + post && AllSpace(pre) && AllSpace(post)
  {
    pre := StartTakes(s);
    post := EndTakes(TrimStart(s));
    assert s == pre + (Trim(s) + post);
  }

  lemma {:induction false} StartTakes(s: string) returns (pre: string)
    ensures s == pre + TrimStart(s) && AllSpace(pre)
  {
    if s != "" && IsSpace(s[0]) {
      var rest := StartTakes(s[1..]);
      pre := [s[0]] + rest;
      assert pre + TrimStart(s) == [s[0]] + (rest + TrimStart(s[1..]));
    } else {
      pre := "";
    }
  }

  lemma {:induction false} EndTakes(s: string) returns (post: string)
    ensures s == TrimEnd(s) + post && AllSpace(post)
  {
    if s != "" && IsSpace(s[|s| - 1]) {
      var rest := EndTakes(s[..|s| - 1]);
      post := rest + [s[|s| - 1]];
      assert s == s[..|s| - 1] + [s[|s| - 1]];
    } else {
      post := "";
    }
  }

  lemma {:induction false} EndSkips(s: string, post: string)
    requires AllSpace(post) && (s == "" || !IsSpace(s[|s| - 1]))
    ensures TrimEnd(s + post) == s
  {
    if post == "" {
      assert s + post == s;
    } else {
      assert (s + post)[..|s + post| - 1] == s + post[..|post| - 1];
      EndSkips(s, post[..|post| - 1]);
    }
  }

  /** What is framed by space is what is left. */
  lemma {:induction false} TrimExactly(pre: string, s: string, post: string)
    requires AllSpace(pre) && AllSpace(post) && Framed(s)
    ensures Trim(pre + s + post) == s
  {
    assert pre + s + post == pre + (s + post);
    TrimStartSkips(pre, s + post);
    EndSkips(s, post);
  }

  function LowerChar(c: char): char {
    if 'A' <= c <= 'Z' then (c as int + 32) as char else c
  }

  function Lower(s: string): string {
    seq(|s|, i requires 0 <= i < |s| => LowerChar(s[i]))
  }

  predicate StartsWith(s: string, prefix: string) {
    prefix <= s
  }
}

/** Demo and production profiles and the `active_profile` file that selects one. */
module SetupProfile {
  import opened Text

  datatype SetupMode = Demo | Production

  /** What is on disk at `active_profile`. */
  datatype ProfileFile = Absent | Unreadable | Contents(text: string)

  function DirName(mode: SetupMode): string {
    match mode
    case Demo => "demo"
    case Production => "production"
  }

  /** `SetupMode::from_str`: the names contain no letter that a non-ASCII
      character lowercases to, so ASCII lowercasing is exact here. */
  function Parse(s: string): Option<SetupMode> {
    var name := Lower(Trim(s));
    if name == "demo" then Some(Demo)
    else if name == "production" then Some(Production)
    else None
  }

  /** `s` spells `name` in letters of either case. */
  predicate Spells(s: string, name: string) {
    |s| == |name| && forall i :: 0 <= i < |s| ==>
      s[i] == name[i] || ('A' <= s[i] <= 'Z' && s[i] as int - 'A' as int == name[i] as int - 'a' as int)
  }

  /** `text` is `name`, in letters of either case, framed by any space. */
  ghost predicate SpellsFramed(text: string, name: string) {
    exists pre, s, post :: IsFramed(text, pre, s, post) && Spells(s, name)
  }

  predicate IsFramed(text: string, pre: string, s: string, post: string) {
    text == pre + s + post && AllSpace(pre) && AllSpace(post)
  }

  lemma {:induction false} SpellsIff(s: string, mode: SetupMode)
    ensures Spells(s, DirName(mode)) <==> Lower(s) == DirName(mode)
  {
    if Lower(s) == DirName(mode) {
      forall i | 0 <= i < |s|
        ensures s[i] == DirName(mode)[i]
          || ('A' <= s[i] <= 'Z' && s[i] as int - 'A' as int == DirName(mode)[i] as int - 'a' as int)
      {
        assert Lower(s)[i] == DirName(mode)[i];
      }
    }
  }

  lemma {:induction false} SpellingIsFramed(s: string, mode: SetupMode)
    requires Spells(s, DirName(mode))
    ensures Framed(s)
  {
    assert s[0] as int < 0x80 && s[|s| - 1] as int < 0x80;
    assert s[0] as int > 0x40 && s[|s| - 1] as int > 0x40;
  }

  /** A name is recognised in any case and framed by any space, and nothing else is. */
  lemma {:induction false} ParseIff(text: string, mode: SetupMode)
    ensures DirName(Demo) == "demo" && DirName(Production) == "production"
    ensures Parse(text) == Some(mode) <==> SpellsFramed(text, DirName(mode))
  {
    if Parse(text) == Some(mode) {
      var pre, post := TrimTakes(text);
      SpellsIff(Trim(text), mode);
      assert IsFramed(text, pre, Trim(text), post);
    }
    forall pre, s, post | IsFramed(text, pre, s, post) && Spells(s, DirName(mode))
      ensures Parse(text) == Some(mode)
    {
      SpellingIsFramed(s, mode);
      TrimExactly(pre, s, post);
      SpellsIff(s, mode);
    }
  }

  /** A profile file selects production exactly when it can be read and says so. */
  lemma {:induction false} ResolvesToProductionIff(file: ProfileFile)
    ensures Resolve(file) == Production <==> file.Contents? && SpellsFramed(file.text, "production")
  {
    if file.Contents? {
      TrimmedTwice(file.text);
      ParseIff(file.text, Production);
    }
  }

  lemma {:induction false} TrimmedTwice(s: string)
    ensures Trim(Trim(s)) == Trim(s)
  {
    var t := Trim(s);
    if t != "" {
      StartOfTrim(s);
      assert t + "" == t && "" + t + "" == t;
      TrimExactly("", t, "");
    }
  }

  lemma {:induction false} StartOfTrim(s: string)
    ensures Trim(s) != "" ==> !IsSpace(Trim(s)[0])
  {
    assert Trim(s) <= TrimStart(s);
  }

  /** `resolve_active_profile`: anything unusable selects demo. */
  function Resolve(file: ProfileFile): SetupMode {
    match file
    case Contents(text) =>
      (match Parse(Trim(text))
       case Some(mode) => mode
       case None => Demo)
    case _ => Demo
  }

  function Written(mode: SetupMode): ProfileFile {
    Contents(DirName(mode))
  }

  /** Writing a mode and resolving the file gives the mode back. */
  lemma {:induction false} WriteThenResolve(mode: SetupMode)
    ensures Resolve(Written(mode)) == mode
  {
    var s := DirName(mode);
    assert Trim(s) == s && Lower(s) == s;
  }

  /** A write of "production" cut off before its last byte selects demo. */
  lemma {:induction false} TornWriteResolvesToDemo(n: nat)
    requires n < |DirName(Production)|
    ensures Resolve(Contents(DirName(Production)[..n])) == Demo
  {
    var s := DirName(Production)[..n];
    assert n > 0 ==> s[0] == 'p';
    assert forall i :: 0 <= i < n ==> !IsSpace(s[i]);
    assert Trim(s) == s;
    assert |Lower(s)| == n && (n > 0 ==> Lower(s)[0] == 'p');
  }
}
