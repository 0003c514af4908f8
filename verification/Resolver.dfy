/**
 Package specifiers and the `exports` / `imports` maps of package.json (compiler/src/resolver.rs).
 The file system is left to the caller: what is resolved here is the target inside the package.
*/
module Resolver {
  import opened Prelude
  import opened Permutations
  import opened Texts

  datatype Json = Text(text: string) | Object(members: seq<Entry>) | OtherJson

  datatype Entry = Entry(key: string, value: Json)

  datatype Error = RootOnlyText | UnsupportedShape | MixedKeys | NoEntries | NoEntryFor | RootOnlyConditions
                 | ManyStars | UnsafeTarget | UnsupportedValue | NoCondition

  // ----- specifiers -----

  datatype Specifier = Specifier(name: string, subpath: string)

  predicate HasPrefix(s: string, p: string) {
    |p| <= |s| && s[..|p|] == p
  }

  /** split_once('/'), the whole text when there is no slash. */
  function BeforeSlash(s: string): string {
    s[..Find(s, '/', 0)]
  }

  function AfterSlash(s: string): string {
    var i := Find(s, '/', 0);
    if i == |s| then "" else s[i + 1..]
  }

  /** What follows the `@` of a scoped specifier. */
  function SplitScoped(rest: string): Option<Specifier> {
    if '/' !in rest then None
    else
      var scope, remainder := BeforeSlash(rest), AfterSlash(rest);
      var name := BeforeSlash(remainder);
      if scope == "" || name == "" then None
      else Some(Specifier("@" + scope + "/" + name, AfterSlash(remainder)))
  }

  /** split_package_specifier */
  function SplitSpecifier(s: string): Option<Specifier> {
    if s == "" || s[0] == '.' || s[0] == '/' || '\\' in s then None
    else if s[0] == '@' then SplitScoped(s[1..])
    else
      var name := BeforeSlash(s);
      if name == "" then None else Some(Specifier(name, AfterSlash(s)))
  }

  lemma CutSlash(s: string)
    ensures '/' !in BeforeSlash(s)
    ensures '/' !in s <==> BeforeSlash(s) == s
    ensures '/' in s ==> s == BeforeSlash(s) + "/" + AfterSlash(s)
    ensures '/' !in s ==> AfterSlash(s) == ""
  {
    var i := Find(s, '/', 0);
    if i < |s| {
      assert s == s[..i] + [s[i]] + s[i + 1..];
    } else {
      assert s[..i] == s;
    }
  }

  lemma CutJoined(a: string, b: string)
    requires '/' !in a
    ensures BeforeSlash(a + "/" + b) == a && AfterSlash(a + "/" + b) == b && '/' in a + "/" + b
  {
    var s := a + "/" + b;
    assert s[|a|] == '/' && forall i :: 0 <= i < |a| ==> s[i] == a[i];
    assert Find(s, '/', 0) == |a|;
    assert s[..|a|] == a && s[|a| + 1..] == b;
  }

  /** A package name: plain, or `@scope/name`. */
  predicate PackageName(name: string) {
    && name != "" && '\\' !in name
    && if name[0] == '@' then
         '/' in name[1..] && BeforeSlash(name[1..]) != "" && AfterSlash(name[1..]) != ""
             && '/' !in AfterSlash(name[1..])
       else name[0] != '.' && '/' !in name
  }

  /** What the split returns is a package name, and name and subpath are the specifier again. */
  lemma SplitIsExact(s: string)
    requires SplitSpecifier(s).Some?
    ensures var p := SplitSpecifier(s).value;
            PackageName(p.name) && (s == p.name + "/" + p.subpath || (s == p.name && p.subpath == ""))
  {
    if s[0] == '@' {
      ScopedSplitIsExact(s);
    } else {
      CutSlash(s);
      BackslashFree(s, BeforeSlash(s));
    }
  }

  lemma ScopedSplitIsExact(s: string)
    requires SplitSpecifier(s).Some? && s[0] == '@'
    ensures var p := SplitSpecifier(s).value;
            PackageName(p.name) && (s == p.name + "/" + p.subpath || (s == p.name && p.subpath == ""))
  {
    var rest := s[1..];
    CutSlash(rest);
    var scope, remainder := BeforeSlash(rest), AfterSlash(rest);
    CutSlash(remainder);
    var name, subpath := BeforeSlash(remainder), AfterSlash(remainder);
    CutJoined(scope, name);
    ScopedParts(s, scope, name, remainder, subpath);
    BackslashFree(s, "@" + scope + "/" + name);
  }

  lemma ScopedParts(s: string, scope: string, name: string, remainder: string, subpath: string)
    requires s != "" && s[0] == '@' && s[1..] == scope + "/" + remainder
    requires remainder == name + "/" + subpath || remainder == name
    ensures ("@" + scope + "/" + name)[1..] == scope + "/" + name && HasPrefix(s, "@" + scope + "/" + name)
    ensures remainder == name + "/" + subpath ==> s == "@" + scope + "/" + name + "/" + subpath
    ensures remainder == name ==> s == "@" + scope + "/" + name
  {
    assert s == ['@'] + s[1..];
  }

  lemma BackslashFree(s: string, p: string)
    requires '\\' !in s && HasPrefix(s, p)
    ensures '\\' !in p
  {
    assert forall c :: c in s[..|p|] ==> c in s;
  }

  lemma ScopedSplitOfJoined(scope: string, tail: string, subpath: string)
    requires scope != "" && '/' !in scope && tail != "" && '/' !in tail
    ensures SplitScoped(scope + "/" + tail) == Some(Specifier("@" + scope + "/" + tail, ""))
    ensures SplitScoped(scope + "/" + (tail + "/" + subpath)) == Some(Specifier("@" + scope + "/" + tail, subpath))
  {
    CutJoined(scope, tail);
    CutJoined(scope, tail + "/" + subpath);
    CutJoined(tail, subpath);
    CutSlash(tail);
  }

  lemma ScopedParse(name: string, scope: string, tail: string, subpath: string)
    requires name == "@" + scope + "/" + tail
    ensures name[1..] == scope + "/" + tail
    ensures (name + "/" + subpath)[0] == '@' && (name + "/" + subpath)[1..] == scope + "/" + (tail + "/" + subpath)
  {
  }

  /** Every package name, alone or with a subpath, is split where it was joined. */
  lemma SplitOfJoined(name: string, subpath: string)
    requires PackageName(name) && '\\' !in subpath
    ensures SplitSpecifier(name) == Some(Specifier(name, ""))
    ensures SplitSpecifier(name + "/" + subpath) == Some(Specifier(name, subpath))
  {
    if name[0] == '@' {
      CutSlash(name[1..]);
      var scope, tail := BeforeSlash(name[1..]), AfterSlash(name[1..]);
      assert name == "@" + scope + "/" + tail;
      ScopedParse(name, scope, tail, subpath);
      ScopedSplitOfJoined(scope, tail, subpath);
    } else {
      CutSlash(name);
      CutJoined(name, subpath);
    }
  }

  // ----- targets stay inside the package -----

  /** package_subpath_safe */
  predicate SubpathSafe(subpath: string) {
    subpath == "" || forall i :: 0 <= i < |Split(subpath, '/')| ==> Plain(Split(subpath, '/')[i])
  }

  predicate Plain(segment: string) {
    segment != "" && segment != "." && segment != ".."
  }

  /** Lexical meaning of a relative path, walked from a directory. */
  function Walk(from: seq<string>, segments: seq<string>): seq<string>
    decreases |segments|
  {
    if segments == [] then from
    else
      Walk(Into(from, segments[0]), segments[1..])
  }

  function Into(from: seq<string>, s: string): seq<string> {
    if s == "" || s == "." then from
    else if s != ".." then from + [s]
    else if from == [] then []
    else from[..|from| - 1]
  }

  /** Where `target` points, relative to the package root. */
  function Meaning(root: seq<string>, target: string): seq<string> {
    Walk(root, Split(target, '/'))
  }

  lemma {:induction false} PlainWalk(from: seq<string>, segments: seq<string>)
    requires forall i :: 0 <= i < |segments| ==> Plain(segments[i])
    ensures Walk(from, segments) == from + segments
    decreases |segments|
  {
    if segments != [] {
      PlainWalk(from + [segments[0]], segments[1..]);
      assert from + [segments[0]] + segments[1..] == from + segments;
    }
  }

  function Replace(s: string, star: string): string {
    if s == "" then "" else (if s[0] == '*' then star else [s[0]]) + Replace(s[1..], star)
  }

  function WithStar(s: string, star: Option<string>): string {
    if star.Some? then Replace(s, star.value) else s
  }

  function Member(members: seq<Entry>, key: string): (r: Option<Json>)
    ensures r.Some? ==> exists i :: 0 <= i < |members| && members[i].key == key && members[i].value == r.value
    ensures r.None? ==> forall i :: 0 <= i < |members| ==> members[i].key != key
  {
    if members == [] then None
    else if members[0].key == key then Some(members[0].value)
    else Member(members[1..], key)
  }

  function Conditions(importMode: bool): seq<string> {
    ["sloppy", if importMode then "import" else "require", "node", "development", "production", "default"]
  }

  /** The member of the first condition that is present. */
  function Chosen(members: seq<Entry>, conditions: seq<string>): (r: Option<Json>)
    ensures r.Some? ==> exists i :: 0 <= i < |members| && members[i].value == r.value
  {
    if conditions == [] then None
    else
      var here := Member(members, conditions[0]);
      if here.Some? then here else Chosen(members, conditions[1..])
  }

  function ResolveText(text: string, star: Option<string>): Result<string, Error> {
    var path := WithStar(text, star);
    if HasPrefix(path, "./") && SubpathSafe(path[2..]) then Ok(path) else Err(UnsafeTarget)
  }

  /** resolve_exports_value_with_star; the target is relative to the package root. */
  function ResolveValue(value: Json, importMode: bool, star: Option<string>): Result<string, Error>
    decreases value
  {
    match value
    case Text(text) => ResolveText(text, star)
    case Object(members) =>
      var entry := Chosen(members, Conditions(importMode));
      if entry.None? then Err(NoCondition) else ResolveValue(entry.value, importMode, star)
    case OtherJson => Err(UnsupportedValue)
  }

  /** A resolved target adds its own plain segments to the root, and nothing else. */
  lemma TargetStaysInside(root: seq<string>, target: string)
    requires HasPrefix(target, "./") && SubpathSafe(target[2..])
    ensures Meaning(root, target) == root + (if target == "./" then [] else Split(target[2..], '/'))
  {
    var rest := target[2..];
    assert target == "." + ['/'] + rest;
    SplitCons(".", rest, '/');
    assert Split(target, '/') == ["."] + Split(rest, '/');
    assert (["."] + Split(rest, '/'))[1..] == Split(rest, '/');
    if rest == "" {
      SplitOne("", '/');
      assert Walk(root, [""]) == Walk(root, [""][1..]) == root;
    } else {
      PlainWalk(root, Split(rest, '/'));
    }
  }

  lemma {:induction false} ResolvedIsSafe(value: Json, importMode: bool, star: Option<string>)
    requires ResolveValue(value, importMode, star).Ok?
    ensures var target := ResolveValue(value, importMode, star).value;
              HasPrefix(target, "./") && SubpathSafe(target[2..])
    decreases value
  {
    match value
    case Text(_) =>
    case Object(members) => ResolvedIsSafe(Chosen(members, Conditions(importMode)).value, importMode, star);
    case OtherJson =>
  }

  /** Whatever the package.json says, a resolved target lies at or below the package root. */
  lemma ResolvedStaysInside(root: seq<string>, value: Json, importMode: bool, star: Option<string>)
    requires ResolveValue(value, importMode, star).Ok?
    ensures root <= Meaning(root, ResolveValue(value, importMode, star).value)
  {
    ResolvedIsSafe(value, importMode, star);
    TargetStaysInside(root, ResolveValue(value, importMode, star).value);
  }

  // ----- where a backslash separates too -----

  /** A target as Windows reads it. */
  function Slashed(s: string): string {
    if s == "" then "" else [if s[0] == '\\' then '/' else s[0]] + Slashed(s[1..])
  }

  lemma {:induction false} SlashedSame(s: string)
    requires '\\' !in s
    ensures Slashed(s) == s
  {
    if s != "" {
      SlashedSame(s[1..]);
    }
  }

  /** A walk that starts `depth` directories below its root never leaves the root. */
  predicate NeverAbove(segments: seq<string>, depth: nat) {
    segments == [] ||
    var s, rest := segments[0], segments[1..];
    if s == "" || s == "." then NeverAbove(rest, depth)
    else if s != ".." then NeverAbove(rest, depth + 1)
    else depth > 0 && NeverAbove(rest, depth - 1)
  }

  lemma {:induction false} NeverAboveStays(root: seq<string>, below: seq<string>, segments: seq<string>)
    requires NeverAbove(segments, |below|)
    ensures root <= Walk(root + below, segments)
    decreases |segments|
  {
    if segments != [] {
      var s, rest := segments[0], segments[1..];
      if s == "" || s == "." {
        NeverAboveStays(root, below, rest);
      } else if s != ".." {
        assert root + below + [s] == root + (below + [s]);
        NeverAboveStays(root, below + [s], rest);
      } else {
        assert (root + below)[..|root + below| - 1] == root + below[..|below| - 1];
        NeverAboveStays(root, below[..|below| - 1], rest);
      }
    }
  }

  lemma {:induction false} NeverFound(from: seq<string>, segments: seq<string>, name: string)
    requires name !in from && name !in segments
    ensures name !in Walk(from, segments)
    decreases |segments|
  {
    if segments != [] {
      NeverFound(Into(from, segments[0]), segments[1..], name);
    }
  }

  /** A walk that goes above the root loses a name that it does not mention. */
  lemma {:induction false} AboveLoses(name: string, below: seq<string>, segments: seq<string>)
    requires !NeverAbove(segments, |below|) && name !in segments && name !in below
    ensures name !in Walk([name] + below, segments)
    decreases |segments|
  {
    var s, rest := segments[0], segments[1..];
    if s == "" || s == "." {
      AboveLoses(name, below, rest);
    } else if s != ".." {
      assert [name] + below + [s] == [name] + (below + [s]);
      AboveLoses(name, below + [s], rest);
    } else if below != [] {
      assert ([name] + below)[..|below|] == [name] + below[..|below| - 1];
      AboveLoses(name, below[..|below| - 1], rest);
    } else {
      assert ([name] + below)[..0] == [];
      NeverFound([], rest, name);
    }
  }

  /** A name longer than any of the segments. */
  function FreshName(segments: seq<string>): (r: string)
    ensures r !in segments && forall i :: 0 <= i < |segments| ==> |r| > |segments[i]|
  {
    if segments == [] then "r" else FreshName(segments[1..]) + segments[0]
  }

  lemma PrefixMember(name: string, path: seq<string>)
    requires [name] <= path
    ensures name in path
  {
    assert path[0] == name;
  }

  /** A target stays at or below every root exactly when its walk never goes above its start. */
  lemma StaysExactly(target: string)
    ensures (forall root: seq<string> :: root <= Meaning(root, target)) <==> NeverAbove(Split(target, '/'), 0)
  {
    var segments := Split(target, '/');
    if NeverAbove(segments, 0) {
      forall root: seq<string>
        ensures root <= Meaning(root, target)
      {
        NeverAboveStays(root, [], segments);
        assert root + [] == root;
      }
    } else {
      var name := FreshName(segments);
      AboveLoses(name, [], segments);
      assert [name] + [] == [name];
      if [name] <= Meaning([name], target) {
        PrefixMember(name, Meaning([name], target));
      }
    }
  }

  /** On Windows a resolved target without a backslash stays inside as well. */
  lemma ResolvedStaysOnWindows(root: seq<string>, value: Json, importMode: bool, star: Option<string>)
    requires ResolveValue(value, importMode, star).Ok? && '\\' !in ResolveValue(value, importMode, star).value
    ensures root <= Meaning(root, Slashed(ResolveValue(value, importMode, star).value))
  {
    SlashedSame(ResolveValue(value, importMode, star).value);
    ResolvedStaysInside(root, value, importMode, star);
  }

  const UPWARD := "./..\\x"

  lemma SplitThree(a: string, b: string, c: string)
    requires '/' !in a && '/' !in b && '/' !in c
    ensures Split(a + ['/'] + (b + ['/'] + c), '/') == [a, b, c]
  {
    SplitOne(c, '/');
    SplitCons(b, c, '/');
    SplitCons(a, b + ['/'] + c, '/');
  }

  lemma SlashedUpward()
    ensures Slashed(UPWARD) == "./../x"
  {
    assert UPWARD[1..] == "/..\\x" && UPWARD[2..] == "..\\x" && UPWARD[3..] == ".\\x";
    assert UPWARD[4..] == "\\x" && UPWARD[5..] == "x" && UPWARD[6..] == "";
    assert Slashed("x") == "x" && Slashed("\\x") == "/x" && Slashed(".\\x") == "./x";
    assert Slashed("..\\x") == "../x" && Slashed("/..\\x") == "/../x";
  }

  lemma UpwardIsAccepted(importMode: bool)
    ensures ResolveValue(Text(UPWARD), importMode, None) == Ok(UPWARD)
  {
    assert UPWARD[2..] == "..\\x" && UPWARD[..2] == "./";
    SplitOne("..\\x", '/');
  }

  /** With one it need not: this target is accepted, and names a sibling of the root. */
  lemma BackslashCanLeave(importMode: bool)
    ensures ResolveValue(Text(UPWARD), importMode, None) == Ok(UPWARD)
    ensures Slashed(UPWARD) == "./../x" && !NeverAbove(Split("./../x", '/'), 0)
  {
    UpwardIsAccepted(importMode);
    SlashedUpward();
    SplitThree(".", "..", "x");
    assert "." + ['/'] + (".." + ['/'] + "x") == "./../x";
    UpIsAbove("x");
  }

  lemma UpIsAbove(name: string)
    ensures !NeverAbove([".", "..", name], 0)
  {
    assert [".", "..", name][1..] == ["..", name];
  }

  // ----- which members matter -----

  /** The value with every member under an unlisted condition removed, at every depth. */
  function Strip(value: Json, keep: set<string>): Json
    decreases value, 1
  {
    if value.Object? then Object(StripMembers(value.members, keep)) else value
  }

  function StripMembers(members: seq<Entry>, keep: set<string>): seq<Entry>
    decreases members, 0
  {
    if members == [] then []
    else
      var first := members[0];
      (if first.key in keep then [Entry(first.key, Strip(first.value, keep))] else [])
          + StripMembers(members[1..], keep)
  }

  lemma MemberCons(first: Entry, rest: seq<Entry>, key: string)
    ensures Member([first] + rest, key) == if first.key == key then Some(first.value) else Member(rest, key)
  {
    assert ([first] + rest)[1..] == rest;
  }

  lemma {:induction false} MemberOfStripped(members: seq<Entry>, keep: set<string>, key: string)
    requires key in keep
    ensures Member(StripMembers(members, keep), key) == StripFound(Member(members, key), keep)
  {
    if members != [] {
      var first, rest := members[0], StripMembers(members[1..], keep);
      MemberOfStripped(members[1..], keep, key);
      MemberCons(Entry(first.key, Strip(first.value, keep)), rest, key);
      assert [] + rest == rest;
    }
  }

  function StripFound(found: Option<Json>, keep: set<string>): Option<Json> {
    if found.Some? then Some(Strip(found.value, keep)) else None
  }

  lemma {:induction false} ChosenOfStripped(members: seq<Entry>, keep: set<string>, conditions: seq<string>)
    requires forall i :: 0 <= i < |conditions| ==> conditions[i] in keep
    ensures Chosen(StripMembers(members, keep), conditions) == StripFound(Chosen(members, conditions), keep)
  {
    if conditions != [] {
      MemberOfStripped(members, keep, conditions[0]);
      ChosenOfStripped(members, keep, conditions[1..]);
    }
  }

  /** Members under conditions the mode does not list never matter, however deep. */
  lemma {:induction false} UnlistedConditionsAreIgnored(value: Json, importMode: bool, star: Option<string>,
      keep: set<string>)
    requires forall i :: 0 <= i < |Conditions(importMode)| ==> Conditions(importMode)[i] in keep
    ensures ResolveValue(Strip(value, keep), importMode, star) == ResolveValue(value, importMode, star)
    decreases value
  {
    if value.Object? {
      ChosenOfStripped(value.members, keep, Conditions(importMode));
      var entry := Chosen(value.members, Conditions(importMode));
      if entry.Some? {
        UnlistedConditionsAreIgnored(entry.value, importMode, star, keep);
      }
    }
  }

  lemma {:induction false} ChosenAt(members: seq<Entry>, conditions: seq<string>, k: nat)
    requires k < |conditions| && Member(members, conditions[k]).Some?
    requires forall j :: 0 <= j < k ==> Member(members, conditions[j]).None?
    ensures Chosen(members, conditions) == Member(members, conditions[k])
    decreases k
  {
    if k > 0 {
      assert Member(members, conditions[0]).None?;
      ChosenAt(members, conditions[1..], k - 1);
    }
  }

  lemma {:induction false} ChosenNowhere(members: seq<Entry>, conditions: seq<string>)
    requires forall j :: 0 <= j < |conditions| ==> Member(members, conditions[j]).None?
    ensures Chosen(members, conditions).None?
  {
    if conditions != [] {
      assert Member(members, conditions[0]).None?;
      ChosenNowhere(members, conditions[1..]);
    }
  }

  /** Of the conditions present the first in the fixed order wins; without one there is an error. */
  lemma FirstConditionWins(members: seq<Entry>, importMode: bool, star: Option<string>, k: nat)
    ensures var order :=
              ["sloppy", if importMode then "import" else "require", "node", "development", "production", "default"];
            && (k < 6 && Member(members, order[k]).Some? && (forall j :: 0 <= j < k ==> Member(members, order[j]).None?)
                ==> ResolveValue(Object(members), importMode, star)
                    == ResolveValue(Member(members, order[k]).value, importMode, star))
            && ((forall j :: 0 <= j < 6 ==> Member(members, order[j]).None?)
                ==> ResolveValue(Object(members), importMode, star) == Err(NoCondition))
  {
    var order := Conditions(importMode);
    if k < 6 && Member(members, order[k]).Some? && (forall j :: 0 <= j < k ==> Member(members, order[j]).None?) {
      ChosenAt(members, order, k);
    } else if forall j :: 0 <= j < 6 ==> Member(members, order[j]).None? {
      ChosenNowhere(members, order);
    }
  }

  /** No object of the value, at any depth, has an `import` or a `require` member. */
  predicate Neutral(value: Json)
    decreases value
  {
    value.Object? ==> forall i :: 0 <= i < |value.members| ==>
      value.members[i].key != "import" && value.members[i].key != "require" && Neutral(value.members[i].value)
  }

  lemma AbsentMember(members: seq<Entry>, key: string)
    requires forall i :: 0 <= i < |members| ==> members[i].key != key
    ensures Member(members, key) == None
  {
  }

  lemma NeutralChoice(members: seq<Entry>)
    requires Neutral(Object(members))
    ensures Chosen(members, Conditions(true)) == Chosen(members, Conditions(false))
    ensures Chosen(members, Conditions(true)).Some? ==> Neutral(Chosen(members, Conditions(true)).value)
  {
    AbsentMember(members, "import");
    AbsentMember(members, "require");
    assert Conditions(true)[1..] == ["import"] + Conditions(true)[2..];
    assert Conditions(false)[1..] == ["require"] + Conditions(false)[2..];
    assert Conditions(true)[2..] == Conditions(false)[2..];
    assert Conditions(true)[1..][1..] == Conditions(true)[2..] && Conditions(false)[1..][1..] == Conditions(false)[2..];
  }

  /** Import and require resolve alike wherever the value tells them apart nowhere. */
  lemma {:induction false} ModesAgree(value: Json, star: Option<string>)
    requires Neutral(value)
    ensures ResolveValue(value, true, star) == ResolveValue(value, false, star)
    decreases value
  {
    if value.Object? {
      NeutralChoice(value.members);
      var entry := Chosen(value.members, Conditions(true));
      if entry.Some? {
        ModesAgree(entry.value, star);
      }
    }
  }

  // ----- pattern keys -----

  datatype PatternMatch = Match(star: string) | NoMatch | MultiStar

  predicate OneStar(pattern: string) {
    var i := Find(pattern, '*', 0);
    i < |pattern| && Find(pattern, '*', i + 1) == |pattern|
  }

  /** pattern_key_match */
  function KeyMatch(pattern: string, request: string): PatternMatch {
    var i := Find(pattern, '*', 0);
    if i == |pattern| then NoMatch
    else if Find(pattern, '*', i + 1) < |pattern| then MultiStar
    else
      var prefix, suffix := pattern[..i], pattern[i + 1..];
      if !HasPrefix(request, prefix) then NoMatch
      else
        var rest := request[|prefix|..];
        if |suffix| <= |rest| && rest[|rest| - |suffix|..] == suffix then Match(rest[..|rest| - |suffix|]) else NoMatch
  }

  lemma {:induction false} ReplaceNone(s: string, star: string)
    requires '*' !in s
    ensures Replace(s, star) == s
  {
    if s != "" {
      ReplaceNone(s[1..], star);
      assert s == [s[0]] + s[1..];
    }
  }

  /** What the first character is replaced with. */
  function Head(s: string, star: string): string
    requires s != ""
  {
    if s[0] == '*' then star else [s[0]]
  }

  lemma {:induction false} ReplaceConcat(a: string, b: string, star: string)
    ensures Replace(a + b, star) == Replace(a, star) + Replace(b, star)
  {
    if a == "" {
      assert a + b == b;
    } else {
      ReplaceConcat(a[1..], b, star);
      ReplaceFirst(a, b, star);
      Regroup(Head(a, star), Replace(a[1..], star), Replace(b, star));
    }
  }

  lemma ReplaceFirst(a: string, b: string, star: string)
    requires a != ""
    ensures Replace(a, star) == Head(a, star) + Replace(a[1..], star)
    ensures Replace(a + b, star) == Head(a, star) + Replace(a[1..] + b, star)
  {
    assert (a + b)[1..] == a[1..] + b;
  }

  /** A pattern with one star, cut at it. */
  lemma CutAtStar(pattern: string)
    requires OneStar(pattern)
    ensures var i := Find(pattern, '*', 0);
            && pattern == pattern[..i] + "*" + pattern[i + 1..] && '*' !in pattern[..i] && '*' !in pattern[i + 1..]
  {
  }

  lemma ReplaceAround(prefix: string, suffix: string, star: string)
    requires '*' !in prefix && '*' !in suffix
    ensures Replace(prefix + "*" + suffix, star) == prefix + star + suffix
  {
    Regroup(prefix, "*", suffix);
    ReplaceConcat(prefix, "*" + suffix, star);
    ReplaceFirst("*", suffix, star);
    assert "*"[1..] + suffix == suffix;
    ReplaceNone(prefix, star);
    ReplaceNone(suffix, star);
    Regroup(prefix, star, suffix);
  }

  lemma ReplaceOne(pattern: string, star: string)
    requires OneStar(pattern)
    ensures var i := Find(pattern, '*', 0); Replace(pattern, star) == pattern[..i] + star + pattern[i + 1..]
  {
    var i := Find(pattern, '*', 0);
    CutAtStar(pattern);
    ReplaceAround(pattern[..i], pattern[i + 1..], star);
  }

  lemma Glue(prefix: string, star: string, suffix: string, request: string)
    ensures (HasPrefix(request, prefix)
             && |prefix| + |suffix| <= |request|
             && request[|request| - |suffix|..] == suffix
             && request[|prefix|..|request| - |suffix|] == star)
       <==> request == prefix + star + suffix
  {
    if HasPrefix(request, prefix) && |prefix| + |suffix| <= |request| && request[|request| - |suffix|..] == suffix
       && request[|prefix|..|request| - |suffix|] == star {
      assert request == request[..|prefix|] + request[|prefix|..|request| - |suffix|] + request[|request| - |suffix|..];
    }
  }

  /** The cut that a match makes, for a prefix and a suffix. */
  function Between(prefix: string, suffix: string, request: string): PatternMatch {
    if !HasPrefix(request, prefix) then NoMatch
    else
      var rest := request[|prefix|..];
      if |suffix| <= |rest| && rest[|rest| - |suffix|..] == suffix then Match(rest[..|rest| - |suffix|]) else NoMatch
  }

  lemma BetweenExactly(prefix: string, suffix: string, request: string, star: string)
    ensures Between(prefix, suffix, request) == Match(star) <==> request == prefix + star + suffix
  {
    Glue(prefix, star, suffix, request);
    if HasPrefix(request, prefix) && |prefix| + |suffix| <= |request| {
      var rest := request[|prefix|..];
      assert rest[|rest| - |suffix|..] == request[|request| - |suffix|..];
      assert rest[..|rest| - |suffix|] == request[|prefix|..|request| - |suffix|];
    }
  }

  lemma KeyMatchIsBetween(pattern: string, request: string)
    requires OneStar(pattern)
    ensures var i := Find(pattern, '*', 0);
            KeyMatch(pattern, request) == Between(pattern[..i], pattern[i + 1..], request)
  {
  }

  /** A key matches with a star exactly when putting the star back gives the request. */
  lemma MatchIsSubstitution(pattern: string, request: string, star: string)
    ensures KeyMatch(pattern, request) == Match(star) <==> OneStar(pattern) && request == Replace(pattern, star)
  {
    if OneStar(pattern) {
      var i := Find(pattern, '*', 0);
      ReplaceOne(pattern, star);
      BetweenExactly(pattern[..i], pattern[i + 1..], request, star);
      KeyMatchIsBetween(pattern, request);
    }
  }

  /** What the star of a key took goes into the star of the target. */
  lemma StarGoesIntoTarget(prefix: string, suffix: string, before: string, after: string, star: string,
      importMode: bool)
    requires '*' !in prefix && '*' !in suffix && '*' !in before && '*' !in after
    ensures var target := before + star + after;
            DecidedBy(Entry(prefix + "*" + suffix, Text(before + "*" + after)), prefix + star + suffix, importMode)
            == if HasPrefix(target, "./") && SubpathSafe(target[2..]) then Ok(target) else Err(UnsafeTarget)
  {
    OneStarBetween(prefix, suffix);
    ReplaceAround(prefix, suffix, star);
    MatchIsSubstitution(prefix + "*" + suffix, prefix + star + suffix, star);
    ReplaceAround(before, after, star);
  }

  lemma OneStarBetween(prefix: string, suffix: string)
    requires '*' !in prefix && '*' !in suffix
    ensures OneStar(prefix + "*" + suffix)
  {
    var pattern := prefix + "*" + suffix;
    assert pattern[|prefix|] == '*' && forall i :: 0 <= i < |prefix| ==> pattern[i] == prefix[i];
    assert Find(pattern, '*', 0) == |prefix|;
    assert forall i :: |prefix| < i < |pattern| ==> pattern[i] == suffix[i - |prefix| - 1];
  }

  /** A target of plain segments is taken as it is; one with a segment that is not plain is refused. */
  lemma PlainTargetsResolve(segments: seq<string>, importMode: bool)
    requires segments != [] && segments != [""] && forall i :: 0 <= i < |segments| ==> '/' !in segments[i]
    ensures var target := "./" + Join(segments, '/');
            ResolveValue(Text(target), importMode, None)
            == if forall i :: 0 <= i < |segments| ==> segments[i] != "" && segments[i] != "." && segments[i] != ".."
               then Ok(target) else Err(UnsafeTarget)
  {
    var path := Join(segments, '/');
    SplitJoin(segments, '/');
    assert ("./" + path)[..2] == "./" && ("./" + path)[2..] == path;
    if path == "" {
      SplitOne("", '/');
    }
  }

  // ----- entries -----

  /** The first key, in the map's order, that decides the request. */
  ghost predicate Decides(members: seq<Entry>, request: string, i: nat) {
    && i < |members| && KeyMatch(members[i].key, request) != NoMatch
    && forall k :: 0 <= k < i ==> KeyMatch(members[k].key, request) == NoMatch
  }

  ghost predicate Undecided(members: seq<Entry>, request: string) {
    forall k :: 0 <= k < |members| ==> KeyMatch(members[k].key, request) == NoMatch
  }

  function DecidedBy(member: Entry, request: string, importMode: bool): Result<string, Error> {
    match KeyMatch(member.key, request)
    case Match(star) => ResolveValue(member.value, importMode, Some(star))
    case _ => Err(ManyStars)
  }

  /** resolve_pattern_entry */
  method ResolvePattern(entries: Json, request: string, importMode: bool) returns (r: Option<Result<string, Error>>)
    ensures r.None? <==> entries.Object? ==> Undecided(entries.members, request)
    ensures r.Some? ==> exists i: nat ::
              Decides(entries.members, request, i) && r.value == DecidedBy(entries.members[i], request, importMode)
  {
    if !entries.Object? {
      return None;
    }
    var members := entries.members;
    for index := 0 to |members|
      invariant forall k :: 0 <= k < index ==> KeyMatch(members[k].key, request) == NoMatch
    {
      match KeyMatch(members[index].key, request) {
        case Match(star) =>
          r := Some(ResolveValue(members[index].value, importMode, Some(star)));
          assert Decides(members, request, index);
          return;
        case MultiStar =>
          assert Decides(members, request, index);
          return Some(Err(ManyStars));
        case NoMatch =>
      }
    }
    r := None;
  }

  predicate SubpathKey(key: string) {
    HasPrefix(key, "./") || key == "."
  }

  datatype Shape = Subpaths | ConditionKeys | Mixed | Empty

  /** detect_exports_shape */
  method DetectShape(members: seq<Entry>) returns (r: Shape)
    ensures r == Subpaths <==> members != [] && forall i :: 0 <= i < |members| ==> SubpathKey(members[i].key)
    ensures r == ConditionKeys <==> members != [] && forall i :: 0 <= i < |members| ==> !SubpathKey(members[i].key)
    ensures r == Empty <==> members == []
  {
    var subpath, condition := false, false;
    for i := 0 to |members|
      invariant subpath <==> exists k :: 0 <= k < i && SubpathKey(members[k].key)
      invariant condition <==> exists k :: 0 <= k < i && !SubpathKey(members[k].key)
    {
      if SubpathKey(members[i].key) {
        subpath := true;
      } else {
        condition := true;
      }
    }
    assert members != [] ==> SubpathKey(members[0].key) || !SubpathKey(members[0].key);
    if subpath && !condition {
      return Subpaths;
    }
    if condition && !subpath {
      return ConditionKeys;
    }
    if !condition && !subpath {
      return Empty;
    }
    r := Mixed;
  }

  function Request(subpath: string): string {
    if subpath == "" then "." else "./" + subpath
  }

  predicate AllSubpaths(members: seq<Entry>) {
    members != [] && forall i :: 0 <= i < |members| ==> SubpathKey(members[i].key)
  }

  predicate AllConditions(members: seq<Entry>) {
    members != [] && forall i :: 0 <= i < |members| ==> !SubpathKey(members[i].key)
  }

  /** A map of subpaths: an exact key beats every pattern, and no key is an error. */
  ghost predicate SubpathAnswer(members: seq<Entry>, request: string, importMode: bool, r: Result<string, Error>) {
    var exact := Member(members, request);
    if exact.Some? then r == ResolveValue(exact.value, importMode, None)
    else if Undecided(members, request) then r == Err(NoEntryFor)
    else exists i: nat :: Decides(members, request, i) && r == DecidedBy(members[i], request, importMode)
  }

  /** resolve_package_entry */
  method ResolveExports(exports: Option<Json>, subpath: string, importMode: bool)
    returns (r: Option<Result<string, Error>>)
    ensures r.None? <==> exports.None?
    ensures exports.Some? && exports.value.Text? ==>
            r.value == if subpath == "" then ResolveText(exports.value.text, None) else Err(RootOnlyText)
    ensures exports.Some? && exports.value.OtherJson? ==> r.value == Err(UnsupportedShape)
    ensures exports.Some? && exports.value.Object? ==>
              var members := exports.value.members;
              if members == [] then r.value == Err(NoEntries)
              else if AllSubpaths(members) then
                SubpathAnswer(members, if subpath == "" then "." else "./" + subpath, importMode, r.value)
              else if AllConditions(members) then
                r.value == if subpath == "" then ResolveValue(exports.value, importMode, None)
                           else Err(RootOnlyConditions)
              else r.value == Err(MixedKeys)
  {
    if exports.None? {
      return None;
    }
    match exports.value {
      case Text(text) =>
        r := Some(if subpath != "" then Err(RootOnlyText) else ResolveValue(exports.value, importMode, None));
      case OtherJson =>
        r := Some(Err(UnsupportedShape));
      case Object(members) =>
        var shape := DetectShape(members);
        match shape {
          case Mixed => r := Some(Err(MixedKeys));
          case Empty => r := Some(Err(NoEntries));
          case ConditionKeys =>
            r := Some(if subpath != "" then Err(RootOnlyConditions) else ResolveValue(exports.value, importMode, None));
          case Subpaths =>
            var exact := Member(members, Request(subpath));
            if exact.Some? {
              return Some(ResolveValue(exact.value, importMode, None));
            }
            r := ResolvePattern(exports.value, Request(subpath), importMode);
            if r.None? {
              r := Some(Err(NoEntryFor));
            }
        }
    }
  }

  /** resolve_imports_entry */
  method ResolveImports(imports: Json, specifier: string, importMode: bool) returns (r: Option<Result<string, Error>>)
    ensures !imports.Object? ==> r.None?
    ensures imports.Object? ==>
              var members := imports.members;
              if Member(members, specifier).None? && Undecided(members, specifier) then r.None?
              else r.Some? && SubpathAnswer(members, specifier, importMode, r.value)
  {
    if imports.Object? {
      var exact := Member(imports.members, specifier);
      if exact.Some? {
        return Some(ResolveValue(exact.value, importMode, None));
      }
    }
    r := ResolvePattern(imports, specifier, importMode);
  }

  lemma {:induction false} MemberAt(members: seq<Entry>, k: nat)
    requires k < |members| && forall j :: 0 <= j < k ==> members[j].key != members[k].key
    ensures Member(members, members[k].key) == Some(members[k].value)
    decreases k
  {
    if k > 0 {
      assert members[0].key != members[k].key;
      MemberAt(members[1..], k - 1);
    }
  }

  /** A key that is the request wins over every pattern, wherever it stands. */
  lemma ExactKeyWins(members: seq<Entry>, request: string, importMode: bool, r: Result<string, Error>, k: nat)
    requires SubpathAnswer(members, request, importMode, r)
    requires k < |members| && members[k].key == request && forall j :: 0 <= j < k ==> members[j].key != request
    ensures r == ResolveValue(members[k].value, importMode, None)
  {
    MemberAt(members, k);
  }

  /** Without one the first pattern that takes the request answers, with its star put into the target. */
  lemma FirstPatternAnswers(members: seq<Entry>, request: string, importMode: bool, r: Result<string, Error>, k: nat,
      star: string)
    requires SubpathAnswer(members, request, importMode, r) && k < |members| && OneStar(members[k].key)
    requires request == Replace(members[k].key, star) && forall j :: 0 <= j < |members| ==> members[j].key != request
    requires forall j :: 0 <= j < k ==> KeyMatch(members[j].key, request) == NoMatch
    ensures r == ResolveValue(members[k].value, importMode, Some(star))
  {
    MatchIsSubstitution(members[k].key, request, star);
    assert Decides(members, request, k);
    var i: nat :| Decides(members, request, i) && r == DecidedBy(members[i], request, importMode);
    assert i == k;
  }

  lemma DecidedStaysInside(root: seq<string>, member: Entry, request: string, importMode: bool)
    requires DecidedBy(member, request, importMode).Ok?
    ensures root <= Meaning(root, DecidedBy(member, request, importMode).value)
  {
    ResolvedStaysInside(root, member.value, importMode, Some(KeyMatch(member.key, request).star));
  }

  /** Either way, what comes out lies inside the package. */
  lemma AnswerStaysInside(root: seq<string>, members: seq<Entry>, request: string, importMode: bool,
      r: Result<string, Error>)
    requires SubpathAnswer(members, request, importMode, r) && r.Ok?
    ensures root <= Meaning(root, r.value)
  {
    var exact := Member(members, request);
    if exact.Some? {
      ResolvedStaysInside(root, exact.value, importMode, None);
    } else {
      var i: nat :| Decides(members, request, i) && r == DecidedBy(members[i], request, importMode);
      DecidedStaysInside(root, members[i], request, importMode);
    }
  }

  // ----- package roots -----

  /** find_package_root: the nearest ancestor directory that holds the package. */
  method FindAncestor(dir: seq<string>, holds: seq<string> -> bool) returns (r: Option<seq<string>>)
    ensures r.Some? ==> r.value <= dir && holds(r.value) && forall k :: |r.value| < k <= |dir| ==> !holds(dir[..k])
    ensures r.None? ==> forall k :: 0 <= k <= |dir| ==> !holds(dir[..k])
  {
    var cursor := |dir|;
    while true
      invariant 0 <= cursor <= |dir|
      invariant forall k :: cursor < k <= |dir| ==> !holds(dir[..k])
      decreases cursor
    {
      if holds(dir[..cursor]) {
        return Some(dir[..cursor]);
      }
      if cursor == 0 {
        return None;
      }
      cursor := cursor - 1;
    }
  }
}
