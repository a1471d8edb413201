/** Boot-time validation of a vertical's profile kinds, and the snapshot of their
    directory names and setup requirements that requests are answered from. */
module ProfileKinds {
  import opened Text

  // ------------------------------------------------------------ directory names

  datatype NameError = Empty | DotOrDotDot | LeadingDot | PathSeparator | InteriorNul

  const NUL: char := 0 as char

  predicate IsSeparator(c: char) {
    c == '/' || c == '\\'
  }

  /** `ProfileDirName`'s validation; `None` accepts. */
  function Validate(s: string): Option<NameError> {
    if s == "" then Some(Empty)
    else if s == "." || s == ".." then Some(DotOrDotDot)
    else if s[0] == '.' then Some(LeadingDot)
    else if exists c :: c in s && IsSeparator(c) then Some(PathSeparator)
    else if NUL in s then Some(InteriorNul)
    else None
  }

  /** Each reason for turning a directory name away, with its exact cause; the first one
      that applies is given. */
  lemma {:induction false} NameErrorsIff(s: string)
    ensures Validate(s) == Some(Empty) <==> s == ""
    ensures Validate(s) == Some(DotOrDotDot) <==> s in {".", ".."}
    ensures Validate(s) == Some(LeadingDot) <==> s !in {"", ".", ".."} && s[0] == '.'
    ensures Validate(s) == Some(PathSeparator) <==> s != "" && s[0] != '.' && ('/' in s || '\\' in s)
    ensures Validate(s) == Some(InteriorNul) <==>
      s != "" && s[0] != '.' && '/' !in s && '\\' !in s && '\0' in s
    ensures Validate(s) == None <==> s != "" && s[0] != '.' && '/' !in s && '\\' !in s && '\0' !in s
  {
    assert '/' in s ==> IsSeparator('/');
    assert '\\' in s ==> IsSeparator('\\');
    assert s in {".", ".."} ==> s[0] == '.';
  }

  /** The components of a path, split at either kind of separator. */
  function Components(path: string): (r: seq<string>)
    ensures r != []
  {
    if path == "" then [""]
    else
      var rest := Components(path[..|path| - 1]);
      var c := path[|path| - 1];
      if IsSeparator(c) then rest + [""]
      else rest[..|rest| - 1] + [rest[|rest| - 1] + [c]]
  }

  lemma {:induction false} ComponentsOfJoin(base: string, name: string)
    requires forall c :: c in name ==> !IsSeparator(c)
    ensures Components(base + "/" + name) == Components(base) + [name]
  {
    var path := base + "/" + name;
    if name == "" {
      assert path[..|path| - 1] == base;
    } else {
      var shorter := name[..|name| - 1];
      ComponentsOfJoin(base, shorter);
      assert path[..|path| - 1] == base + "/" + shorter;
      assert path[|path| - 1] == name[|name| - 1];
      assert shorter + [name[|name| - 1]] == name;
    }
  }

  /** An accepted name is one step below whatever it is joined to: it adds a
      single component, which is neither empty nor a reference to a parent. */
  lemma {:induction false} AcceptedNameIsOneStepDown(base: string, name: string)
    requires Validate(name).None?
    ensures Components(base + "/" + name) == Components(base) + [name]
    ensures name !in ["", ".", ".."] && NUL !in name
  {
    ComponentsOfJoin(base, name);
  }

  // ------------------------------------------------------------ grafts

  /** What a vertical declares about its profiles. */
  datatype Graft<!K> = Graft(
    kinds: seq<K>,
    display: K -> string,
    parse: string -> Option<K>,
    requiresSetup: K -> bool,
    authKind: K)

  datatype KindError = BadDirName(error: NameError) | Unparseable | RoundTripMismatch

  /** `validate_profile_kind`. */
  function ValidateKind<K(==)>(g: Graft<K>, k: K): Result<string, KindError> {
    var dir := g.display(k);
    var name := Validate(dir);
    if name.Some? then Err(BadDirName(name.value))
    else
      var parsed := g.parse(dir);
      if parsed.None? then Err(Unparseable)
      else if parsed.value != k then Err(RoundTripMismatch)
      else Ok(dir)
  }

  /** Each reason for turning a kind away, with its exact cause. */
  lemma {:induction false} KindErrorsIff<K>(g: Graft<K>, k: K)
    ensures var r, dir := ValidateKind(g, k), g.display(k);
      && (r.Ok? <==> Sound(g, k)) && (r.Ok? ==> r.value == dir)
      && (r.Err? && r.error.BadDirName? <==> Validate(dir).Some?)
      && (r.Err? && r.error.BadDirName? ==> r.error.error == Validate(dir).value)
      && (r == Err(Unparseable) <==> Validate(dir).None? && g.parse(dir).None?)
      && (r == Err(RoundTripMismatch) <==> Validate(dir).None? && g.parse(dir).Some? && g.parse(dir).value != k)
  {
  }

  /** The directory name is path-safe and parses back to the kind. */
  predicate Sound<K(==)>(g: Graft<K>, k: K) {
    Validate(g.display(k)).None? && g.parse(g.display(k)) == Some(k)
  }

  /** Collecting the directory names stops at the first invalid kind. */
  function CollectDirs<K(==)>(g: Graft<K>, kinds: seq<K>): Result<seq<string>, KindError> {
    if kinds == [] then Ok([])
    else
      var before := CollectDirs(g, kinds[..|kinds| - 1]);
      if before.Err? then before
      else match ValidateKind(g, kinds[|kinds| - 1])
        case Err(e) => Err(e)
        case Ok(dir) => Ok(before.value + [dir])
  }

  /** Collecting into a map: a later entry for the same directory overwrites. */
  function CollectRequires<K(==)>(g: Graft<K>, kinds: seq<K>): Result<map<string, bool>, KindError> {
    if kinds == [] then Ok(map[])
    else
      var k := kinds[|kinds| - 1];
      var before := CollectRequires(g, kinds[..|kinds| - 1]);
      if before.Err? then before
      else match ValidateKind(g, k)
        case Err(e) => Err(e)
        case Ok(dir) => Ok(before.value[dir := g.requiresSetup(k)])
  }

  datatype Snapshot = Snapshot(dirNames: seq<string>, needsSetup: map<string, bool>, authDir: string)

  /** The part of `Engine::boot` that snapshots the graft's vocabulary. */
  function BootSnapshot<K(==)>(g: Graft<K>): Result<Snapshot, KindError> {
    match CollectDirs(g, g.kinds)
    case Err(e) => Err(e)
    case Ok(dirs) =>
      match CollectRequires(g, g.kinds)
      case Err(e) => Err(e)
      case Ok(req) =>
        match ValidateKind(g, g.authKind)
        case Err(e) => Err(e)
        case Ok(auth) => Ok(Snapshot(dirs, req, auth))
  }

  // ------------------------------------------------------------ what boot accepts

  ghost predicate AllSound<K>(g: Graft<K>, kinds: seq<K>) {
    forall i :: 0 <= i < |kinds| ==> Sound(g, kinds[i])
  }

  /** Nothing before position `i` is at fault, and `kinds[i]` fails with `e`. */
  ghost predicate FirstFault<K>(g: Graft<K>, kinds: seq<K>, i: nat, e: KindError)
    requires i < |kinds|
  {
    AllSound(g, kinds[..i]) && ValidateKind(g, kinds[i]) == Err(e)
  }

  lemma {:induction false} CollectsAll<K>(g: Graft<K>, kinds: seq<K>)
    ensures CollectDirs(g, kinds).Ok? <==> AllSound(g, kinds)
    ensures CollectDirs(g, kinds).Ok? ==>
      && |CollectDirs(g, kinds).value| == |kinds|
      && forall i :: 0 <= i < |kinds| ==> CollectDirs(g, kinds).value[i] == g.display(kinds[i])
    ensures CollectDirs(g, kinds).Err? ==>
      exists i: nat :: i < |kinds| && FirstFault(g, kinds, i, CollectDirs(g, kinds).error)
  {
    if kinds != [] {
      var n := |kinds| - 1;
      CollectsAll(g, kinds[..n]);
      if CollectDirs(g, kinds[..n]).Err? {
        var e := CollectDirs(g, kinds[..n]).error;
        var i: nat :| i < n && FirstFault(g, kinds[..n], i, e);
        assert kinds[..n][..i] == kinds[..i];
        assert FirstFault(g, kinds, i, e);
        assert !Sound(g, kinds[i]);
      } else if CollectDirs(g, kinds).Err? {
        assert FirstFault(g, kinds, n, CollectDirs(g, kinds).error);
        assert !Sound(g, kinds[n]);
      } else {
        forall i | 0 <= i < |kinds|
          ensures Sound(g, kinds[i]) && CollectDirs(g, kinds).value[i] == g.display(kinds[i])
        {
          if i < n { assert kinds[..n][i] == kinds[i]; }
        }
      }
    }
  }

  lemma {:induction false} BothCollectionsFailAlike<K>(g: Graft<K>, kinds: seq<K>)
    ensures CollectRequires(g, kinds).Ok? == CollectDirs(g, kinds).Ok?
    ensures CollectRequires(g, kinds).Err? ==> CollectRequires(g, kinds).error == CollectDirs(g, kinds).error
  {
    if kinds != [] {
      BothCollectionsFailAlike(g, kinds[..|kinds| - 1]);
    }
  }

  /** Boot goes ahead exactly when every declared kind and the auth kind has a
      path-safe directory name that parses back to it; otherwise the error is
      that of the first declared kind at fault, or else of the auth kind. */
  lemma {:induction false} BootAcceptsIff<K>(g: Graft<K>)
    ensures BootSnapshot(g).Ok? <==> AllSound(g, g.kinds) && Sound(g, g.authKind)
    ensures BootSnapshot(g).Err? ==>
      || (exists i: nat :: i < |g.kinds| && FirstFault(g, g.kinds, i, BootSnapshot(g).error))
      || (AllSound(g, g.kinds) && ValidateKind(g, g.authKind) == Err(BootSnapshot(g).error))
  {
    CollectsAll(g, g.kinds);
    BothCollectionsFailAlike(g, g.kinds);
  }

  // ------------------------------------------------------------ what the map answers

  /** The last of `kinds` with this directory. */
  ghost predicate LastWriter<K>(g: Graft<K>, kinds: seq<K>, dir: string, i: nat) {
    && i < |kinds| && g.display(kinds[i]) == dir
    && forall j :: i < j < |kinds| ==> g.display(kinds[j]) != dir
  }

  /** The map's answer for `dir` is that of the last kind that has it. */
  ghost predicate AnsweredByLast<K>(g: Graft<K>, kinds: seq<K>, m: map<string, bool>, dir: string) {
    dir in m && exists i: nat :: LastWriter(g, kinds, dir, i) && m[dir] == g.requiresSetup(kinds[i])
  }

  lemma {:induction false} LastWriterSnoc<K>(g: Graft<K>, kinds: seq<K>, k: K, m: map<string, bool>, dir: string)
    requires g.display(k) == dir || AnsweredByLast(g, kinds, m, dir)
    ensures AnsweredByLast(g, kinds + [k], m[g.display(k) := g.requiresSetup(k)], dir)
  {
    var longer := kinds + [k];
    if dir == g.display(k) {
      assert LastWriter(g, longer, dir, |kinds|);
    } else {
      var i: nat :| LastWriter(g, kinds, dir, i) && m[dir] == g.requiresSetup(kinds[i]);
      assert LastWriter(g, longer, dir, i);
    }
  }

  lemma {:induction false} EveryKindIsPresent<K>(g: Graft<K>, kinds: seq<K>)
    requires CollectRequires(g, kinds).Ok?
    ensures forall i :: 0 <= i < |kinds| ==> g.display(kinds[i]) in CollectRequires(g, kinds).value
  {
    if kinds != [] {
      var n := |kinds| - 1;
      EveryKindIsPresent(g, kinds[..n]);
      assert forall i :: 0 <= i < n ==> kinds[..n][i] == kinds[i];
    }
  }

  lemma {:induction false} LastWriterWins<K>(g: Graft<K>, kinds: seq<K>)
    requires CollectRequires(g, kinds).Ok?
    ensures forall dir :: dir in CollectRequires(g, kinds).value ==>
      AnsweredByLast(g, kinds, CollectRequires(g, kinds).value, dir)
    ensures forall i :: 0 <= i < |kinds| ==> g.display(kinds[i]) in CollectRequires(g, kinds).value
  {
    EveryKindIsPresent(g, kinds);
    if kinds != [] {
      var front, k := kinds[..|kinds| - 1], kinds[|kinds| - 1];
      LastWriterWins(g, front);
      assert kinds == front + [k];
      forall dir | dir in CollectRequires(g, kinds).value
        ensures AnsweredByLast(g, kinds, CollectRequires(g, kinds).value, dir)
      {
        LastWriterSnoc(g, front, k, CollectRequires(g, front).value, dir);
      }
    }
  }

  lemma {:induction false} SoundKindsAreApart<K>(g: Graft<K>, j: K, k: K)
    requires Sound(g, j) && Sound(g, k)
    ensures g.display(j) == g.display(k) <==> j == k
  {
    assert g.parse(g.display(j)) == Some(j) && g.parse(g.display(k)) == Some(k);
  }

  ghost predicate Distinct<K(!new)>(s: seq<K>) {
    forall i, j :: 0 <= i < j < |s| ==> s[i] != s[j]
  }

  lemma {:induction false} NothingOverwritten<K(!new)>(g: Graft<K>, kinds: seq<K>)
    requires AllSound(g, kinds) && Distinct(kinds) && CollectRequires(g, kinds).Ok?
    ensures |CollectRequires(g, kinds).value| == |kinds|
  {
    if kinds != [] {
      var n := |kinds| - 1;
      var before := kinds[..n];
      NothingOverwritten(g, before);
      LastWriterWins(g, before);
      var m, dir := CollectRequires(g, before).value, g.display(kinds[n]);
      forall i | 0 <= i < n
        ensures g.display(before[i]) != dir
      {
        assert before[i] == kinds[i];
        SoundKindsAreApart(g, kinds[i], kinds[n]);
      }
      assert forall i: nat :: !LastWriter(g, before, dir, i);
      assert dir !in m;
    }
  }

  lemma {:induction false} KindIsAnswered<K(!new)>(g: Graft<K>, k: K)
    requires AllSound(g, g.kinds) && CollectRequires(g, g.kinds).Ok? && k in g.kinds
    ensures var m := CollectRequires(g, g.kinds).value;
      g.display(k) in m && m[g.display(k)] == g.requiresSetup(k)
  {
    var m := CollectRequires(g, g.kinds).value;
    LastWriterWins(g, g.kinds);
    var j :| 0 <= j < |g.kinds| && g.kinds[j] == k;
    var i: nat :| LastWriter(g, g.kinds, g.display(k), i) && m[g.display(k)] == g.requiresSetup(g.kinds[i]);
    SoundKindsAreApart(g, g.kinds[i], g.kinds[j]);
  }

  /** The map has the directories that are listed, and no other. */
  lemma {:induction false} SameDirectories<K(!new)>(g: Graft<K>, dir: string)
    requires CollectDirs(g, g.kinds).Ok? && CollectRequires(g, g.kinds).Ok?
    ensures dir in CollectRequires(g, g.kinds).value <==> dir in CollectDirs(g, g.kinds).value
  {
    var dirs, m := CollectDirs(g, g.kinds).value, CollectRequires(g, g.kinds).value;
    CollectsAll(g, g.kinds);
    LastWriterWins(g, g.kinds);
    if dir in m {
      var i: nat :| LastWriter(g, g.kinds, dir, i) && m[dir] == g.requiresSetup(g.kinds[i]);
      assert dirs[i] == dir;
    }
    if dir in dirs {
      var i :| 0 <= i < |dirs| && dirs[i] == dir;
      assert g.display(g.kinds[i]) in m;
    }
  }

  /** Once boot succeeds the snapshot answers for every declared kind as the graft
      does, it names no other directory, and distinct kinds keep separate entries. */
  lemma {:induction false} SnapshotAnswersForTheGraft<K(!new)>(g: Graft<K>)
    requires BootSnapshot(g).Ok?
    ensures var snap := BootSnapshot(g).value;
      && (forall k :: k in g.kinds ==>
            g.display(k) in snap.needsSetup && snap.needsSetup[g.display(k)] == g.requiresSetup(k))
      && (forall dir :: dir in snap.needsSetup ==> dir in snap.dirNames)
      && (forall dir :: dir in snap.dirNames ==> dir in snap.needsSetup)
      && |snap.dirNames| == |g.kinds| && snap.authDir == g.display(g.authKind)
      && (forall i :: 0 <= i < |g.kinds| ==> snap.dirNames[i] == g.display(g.kinds[i]))
      && (Distinct(g.kinds) ==> |snap.needsSetup| == |g.kinds|)
  {
    CollectsAll(g, g.kinds);
    forall k | k in g.kinds
      ensures var m := CollectRequires(g, g.kinds).value;
        g.display(k) in m && m[g.display(k)] == g.requiresSetup(k)
    {
      KindIsAnswered(g, k);
    }
    forall dir
      ensures dir in CollectRequires(g, g.kinds).value <==> dir in CollectDirs(g, g.kinds).value
    {
      SameDirectories(g, dir);
    }
    if Distinct(g.kinds) { NothingOverwritten(g, g.kinds); }
  }

  // ------------------------------------------------------------ requests

  datatype Platform = Platform(snapshot: Snapshot, active: string, setupCompleted: bool)

  function IsSetupComplete(p: Platform): bool {
    var needsSetup := if p.active in p.snapshot.needsSetup then p.snapshot.needsSetup[p.active] else false;
    !needsSetup || p.setupCompleted
  }

  /** On a declared kind the answer is the one the graft would give; on a
      directory the graft never declared, setup counts as complete. */
  lemma {:induction false} SetupCompletenessIsTheGrafts<K(!new)>(g: Graft<K>, active: string, setupCompleted: bool)
    requires BootSnapshot(g).Ok?
    ensures forall k :: k in g.kinds && g.display(k) == active ==>
      (IsSetupComplete(Platform(BootSnapshot(g).value, active, setupCompleted)) <==>
        (g.requiresSetup(k) ==> setupCompleted))
    ensures (forall k :: k in g.kinds ==> g.display(k) != active) ==>
      IsSetupComplete(Platform(BootSnapshot(g).value, active, setupCompleted))
  {
    SnapshotAnswersForTheGraft(g);
    CollectsAll(g, g.kinds);
    var snap := BootSnapshot(g).value;
    if active in snap.dirNames {
      var i :| 0 <= i < |snap.dirNames| && snap.dirNames[i] == active;
      assert g.kinds[i] in g.kinds && g.display(g.kinds[i]) == active;
    }
  }
}
