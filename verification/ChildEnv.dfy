/**
 * Bounding a child's environment block: PATH merging and deduplication, then eviction of the
 * largest unprotected variables. An environment is the sequence of an object's entries.
 */
module ChildEnv {
  import opened Util
  import opened Text

  const CHILD_ENV_BLOCK_CAP_CHARS := 32767

  datatype Var = Var(name: string, value: string)

  type Env = seq<Var>

  /** The keys of an object are distinct. */
  ghost predicate Unique(env: Env) {
    forall i, j :: 0 <= i < j < |env| ==> env[i].name != env[j].name
  }

  // ----- Names -----

  function UpperChar(c: char): char {
    if 'a' <= c <= 'z' then (c as int - 32) as char else c
  }

  function LowerChar(c: char): char {
    if 'A' <= c <= 'Z' then (c as int + 32) as char else c
  }

  function Upper(s: string): string { seq(|s|, i requires 0 <= i < |s| => UpperChar(s[i])) }

  function Lower(s: string): string { seq(|s|, i requires 0 <= i < |s| => LowerChar(s[i])) }

  const PROTECTED_NAMES: set<string> := {
    "PATH", "PATHEXT", "HOME", "USERPROFILE", "HOMEDRIVE", "HOMEPATH",
    "USERNAME", "USERDOMAIN", "COMPUTERNAME", "APPDATA", "LOCALAPPDATA",
    "PROGRAMDATA", "PUBLIC", "ALLUSERSPROFILE", "SYSTEMROOT", "SYSTEMDRIVE",
    "WINDIR", "COMSPEC", "TEMP", "TMP", "TMPDIR",
    "PROGRAMFILES", "PROGRAMFILES(X86)", "PROGRAMW6432",
    "COMMONPROGRAMFILES", "COMMONPROGRAMFILES(X86)", "COMMONPROGRAMW6432",
    "PSMODULEPATH", "NUMBER_OF_PROCESSORS", "PROCESSOR_ARCHITECTURE", "OS",
    "MSYSTEM", "SHELL", "TERM", "LANG", "LC_ALL", "TZ",
    "HTTP_PROXY", "HTTPS_PROXY", "NO_PROXY", "ALL_PROXY"
  }

  const PROTECTED_PREFIXES: seq<string> := [
    "GIT_", "GCM_", "GH_", "GITHUB_", "SSH_", "BEADS_", "BD_", "DOLT_",
    "APRA_", "FLEET_", "ANTHROPIC_", "CLAUDE_", "OPENAI_", "CODEX_",
    "GEMINI_", "GOOGLE_", "COPILOT_", "AWS_", "AZURE_", "NODE_", "NPM_"
  ]

  const CREDENTIAL_PARTS: seq<string> := [
    "TOKEN", "SECRET", "PASSWORD", "PASSWD", "CREDENTIAL", "APIKEY", "API_KEY", "AUTH"
  ]

  predicate Contains(s: string, part: string) {
    part <= s || (s != [] && Contains(s[1..], part))
  }

  predicate IsProtected(name: string) {
    var upper := Upper(name);
    || upper in PROTECTED_NAMES
    || (exists i :: 0 <= i < |PROTECTED_PREFIXES| && PROTECTED_PREFIXES[i] <= upper)
    || (exists i :: 0 <= i < |CREDENTIAL_PARTS| && Contains(upper, CREDENTIAL_PARTS[i]))
  }

  predicate IsPath(name: string) { Upper(name) == "PATH" }

  lemma PathProtected(name: string)
    requires IsPath(name)
    ensures IsProtected(name)
  {
  }

  // ----- Sizes -----

  /** NAME=VALUE and a terminator. */
  function VarSize(v: Var): nat { Units(v.name) + 1 + Units(v.value) + 1 }

  function SumSize(env: Env): nat {
    if env == [] then 0 else VarSize(env[0]) + SumSize(env[1..])
  }

  function BlockSize(env: Env): nat { 1 + SumSize(env) }

  lemma {:induction false} SumConcat(a: Env, b: Env)
    ensures SumSize(a + b) == SumSize(a) + SumSize(b)
  {
    if a == [] {
      assert a + b == b;
    } else {
      SumConcat(a[1..], b);
      assert (a + b)[1..] == a[1..] + b;
    }
  }

  method EnvBlockSize(env: Env) returns (size: nat)
    ensures size == BlockSize(env)
  {
    size := 1;
    for i := 0 to |env|
      invariant size == BlockSize(env[..i])
    {
      assert env[..i + 1] == env[..i] + [env[i]];
      SumConcat(env[..i], [env[i]]);
      size := size + Units(env[i].name) + 1 + Units(env[i].value) + 1;
    }
    assert env[..|env|] == env;
  }

  // ----- PATH entries -----

  function StripSlashes(s: string): string {
    if s != [] && (s[|s| - 1] == '\\' || s[|s| - 1] == '/') then StripSlashes(s[..|s| - 1]) else s
  }

  /** What two entries are compared by. */
  function Norm(entry: string): string { Lower(StripSlashes(entry)) }

  /** The trimmed entries, without the empty ones. */
  function Entries(raws: seq<string>): seq<string> {
    if raws == [] then []
    else
      var entry := Trim(raws[|raws| - 1]);
      Entries(raws[..|raws| - 1]) + (if entry == "" then [] else [entry])
  }

  predicate Represented(entries: seq<string>, norm: string) {
    exists i :: 0 <= i < |entries| && Norm(entries[i]) == norm
  }

  /** The entries no earlier entry equals, in their order. */
  function Firsts(entries: seq<string>): seq<string> {
    if entries == [] then []
    else
      var front, last := entries[..|entries| - 1], entries[|entries| - 1];
      Firsts(front) + (if Represented(front, Norm(last)) then [] else [last])
  }

  function DedupedEntries(value: string, sep: char): seq<string> { Firsts(Entries(Split(value, sep))) }

  function DedupedPath(value: string, sep: char): string { Join(DedupedEntries(value, sep), sep) }

  lemma {:induction false} FirstsRepresent(entries: seq<string>, norm: string)
    ensures Represented(Firsts(entries), norm) <==> Represented(entries, norm)
  {
    if entries != [] {
      var front, last := entries[..|entries| - 1], entries[|entries| - 1];
      var out := Firsts(entries);
      FirstsRepresent(front, norm);
      FirstsRepresent(front, Norm(last));
      if i :| 0 <= i < |front| && Norm(front[i]) == norm {
        assert Norm(entries[i]) == norm;
        var j :| 0 <= j < |Firsts(front)| && Norm(Firsts(front)[j]) == norm;
        assert Norm(out[j]) == norm;
      }
      if Norm(last) == norm {
        assert Norm(entries[|front|]) == norm;
        if Represented(front, norm) {
          var j :| 0 <= j < |Firsts(front)| && Norm(Firsts(front)[j]) == norm;
          assert Norm(out[j]) == norm;
        } else {
          assert out[|Firsts(front)|] == last;
        }
      }
      if i :| 0 <= i < |out| && Norm(out[i]) == norm {
        if i < |Firsts(front)| {
          assert Norm(Firsts(front)[i]) == norm;
        }
      }
    }
  }

  /** seen holds what the entries are compared by. */
  ghost predicate SeenIs(entries: seq<string>, seen: set<string>) {
    forall norm :: norm in seen <==> Represented(entries, norm)
  }

  lemma NextEntry(entries: seq<string>, entry: string, seen: set<string>)
    requires SeenIs(entries, seen)
    ensures SeenIs(entries + [entry], seen + {Norm(entry)})
    ensures Firsts(entries + [entry]) == if Norm(entry) in seen then Firsts(entries) else Firsts(entries) + [entry]
  {
    var all := entries + [entry];
    assert all[..|entries|] == entries;
    forall norm ensures norm in seen + {Norm(entry)} <==> Represented(all, norm) {
      RepresentedSnoc(entries, entry, norm);
    }
    assert Firsts(entries) + [] == Firsts(entries);
  }

  lemma EntriesNext(raws: seq<string>, i: nat)
    requires i < |raws|
    ensures Entries(raws[..i + 1])
            == if Trim(raws[i]) == "" then Entries(raws[..i]) else Entries(raws[..i]) + [Trim(raws[i])]
  {
    assert raws[..i + 1][..i] == raws[..i];
    assert Entries(raws[..i]) + [] == Entries(raws[..i]);
  }

  /** The first i entries are dealt with. */
  ghost predicate Deduping(raws: seq<string>, i: nat, out: seq<string>, seen: set<string>) {
    i <= |raws| && out == Firsts(Entries(raws[..i])) && SeenIs(Entries(raws[..i]), seen)
  }

  lemma DedupingNext(raws: seq<string>, i: nat, out: seq<string>, seen: set<string>)
    requires Deduping(raws, i, out, seen) && i < |raws|
    ensures var entry := Trim(raws[i]);
            var norm := Norm(entry);
            if entry == "" || norm in seen then Deduping(raws, i + 1, out, seen)
            else Deduping(raws, i + 1, out + [entry], seen + {norm})
  {
    EntriesNext(raws, i);
    if Trim(raws[i]) != "" {
      DedupingTaken(raws, i, Entries(raws[..i]), Trim(raws[i]), out, seen);
    }
  }

  lemma DedupingTaken(raws: seq<string>, i: nat, before: seq<string>, entry: string, out: seq<string>,
                      seen: set<string>)
    requires out == Firsts(before) && SeenIs(before, seen) && i < |raws| && Entries(raws[..i + 1]) == before + [entry]
    ensures if Norm(entry) in seen then Deduping(raws, i + 1, out, seen)
            else Deduping(raws, i + 1, out + [entry], seen + {Norm(entry)})
  {
    NextEntry(before, entry, seen);
    if Norm(entry) in seen {
      assert seen + {Norm(entry)} == seen;
    }
  }

  method DedupePathValue(value: string, sep: char) returns (r: string)
    ensures r == DedupedPath(value, sep)
  {
    var raws := Split(value, sep);
    var out := Dedupe(raws);
    r := Join(out, sep);
  }

  /** for (const raw of value.split(sep)) { ... } */
  method Dedupe(raws: seq<string>) returns (out: seq<string>)
    ensures out == Firsts(Entries(raws))
  {
    var seen: set<string> := {};
    out := [];
    DedupingStart(raws);
    for i := 0 to |raws|
      invariant Deduping(raws, i, out, seen)
    {
      DedupingNext(raws, i, out, seen);
      var entry := Trim(raws[i]);
      if entry == "" {
        continue;
      }
      var norm := Norm(entry);
      if norm in seen {
        continue;
      }
      seen := seen + {norm};
      out := out + [entry];
    }
    assert raws[..|raws|] == raws;
  }

  lemma DedupingStart(raws: seq<string>)
    ensures Deduping(raws, 0, [], {})
  {
    assert raws[..0] == [];
  }

  lemma RepresentedSnoc(entries: seq<string>, entry: string, norm: string)
    ensures Represented(entries + [entry], norm) <==> Represented(entries, norm) || norm == Norm(entry)
  {
    var all := entries + [entry];
    if i :| 0 <= i < |entries| && Norm(entries[i]) == norm {
      assert Norm(all[i]) == norm;
    }
    if norm == Norm(entry) {
      assert Norm(all[|entries|]) == norm;
    }
    if i :| 0 <= i < |all| && Norm(all[i]) == norm {
      if i < |entries| {
        assert Norm(entries[i]) == norm;
      }
    }
  }

  // ----- A deduplicated PATH stays as it is, and is no longer -----

  /** What deduplication leaves: clean entries no two of which are equal. */
  ghost predicate Settled(entries: seq<string>, sep: char) {
    && (forall i :: 0 <= i < |entries| ==> entries[i] != "" && Trimmed(entries[i]) && sep !in entries[i])
    && forall i, j :: 0 <= i < j < |entries| ==> Norm(entries[i]) != Norm(entries[j])
  }

  ghost predicate Clean(entries: seq<string>, sep: char) {
    forall i :: 0 <= i < |entries| ==> entries[i] != "" && Trimmed(entries[i]) && sep !in entries[i]
  }

  lemma {:induction false} EntriesClean(raws: seq<string>, sep: char)
    requires forall i :: 0 <= i < |raws| ==> sep !in raws[i]
    ensures Clean(Entries(raws), sep)
  {
    if raws != [] {
      var raw := raws[|raws| - 1];
      EntriesClean(raws[..|raws| - 1], sep);
      var i, j := TrimIs(raw);
    }
  }

  lemma {:induction false} FirstsSettled(entries: seq<string>, sep: char)
    requires Clean(entries, sep)
    ensures Settled(Firsts(entries), sep)
  {
    if entries != [] {
      var front, last := entries[..|entries| - 1], entries[|entries| - 1];
      FirstsSettled(front, sep);
      FirstsRepresent(front, Norm(last));
      if !Represented(front, Norm(last)) {
        forall i | 0 <= i < |Firsts(front)| ensures Norm(Firsts(front)[i]) != Norm(last) { }
      }
    }
  }

  lemma {:induction false} EntriesOfSettled(entries: seq<string>, sep: char)
    requires Settled(entries, sep)
    ensures Entries(entries) == entries && Firsts(entries) == entries
  {
    if entries != [] {
      var front, last := entries[..|entries| - 1], entries[|entries| - 1];
      assert entries == front + [last];
      SettledFront(front, last, sep);
      EntriesOfSettled(front, sep);
      NewToSettled(front, last, sep);
      SettledSnoc(front, last);
    }
  }

  lemma SettledFront(front: seq<string>, last: string, sep: char)
    requires Settled(front + [last], sep)
    ensures Settled(front, sep)
  {
    var all := front + [last];
    forall i | 0 <= i < |front| ensures front[i] == all[i] { }
  }

  lemma NewToSettled(front: seq<string>, last: string, sep: char)
    requires Settled(front + [last], sep)
    ensures Trim(last) == last != "" && !Represented(front, Norm(last))
  {
    var all := front + [last];
    assert all[|front|] == last;
    TrimTrimmed(last);
    forall i | 0 <= i < |front| ensures Norm(front[i]) != Norm(last) {
      assert all[i] == front[i];
    }
  }

  lemma SettledSnoc(front: seq<string>, last: string)
    requires Entries(front) == front && Firsts(front) == front
    requires Trim(last) == last != "" && !Represented(front, Norm(last))
    ensures Entries(front + [last]) == front + [last] && Firsts(front + [last]) == front + [last]
  {
    assert (front + [last])[..|front|] == front;
  }

  lemma DedupedSettled(value: string, sep: char)
    ensures Settled(DedupedEntries(value, sep), sep)
  {
    SplitPartsClean(value, sep);
    EntriesClean(Split(value, sep), sep);
    FirstsSettled(Entries(Split(value, sep)), sep);
  }

  /** Splitting the deduplicated value gives its entries back. */
  lemma DedupedSplit(value: string, sep: char)
    ensures DedupedEntries(DedupedPath(value, sep), sep) == DedupedEntries(value, sep)
    ensures DedupedPath(DedupedPath(value, sep), sep) == DedupedPath(value, sep)
    ensures DedupedPath(value, sep) != "" ==> Split(DedupedPath(value, sep), sep) == DedupedEntries(value, sep)
    ensures DedupedPath(value, sep) == "" <==> DedupedEntries(value, sep) == []
  {
    var entries := DedupedEntries(value, sep);
    DedupedSettled(value, sep);
    EntriesOfSettled(entries, sep);
    if entries == [] {
      assert Split("", sep) == [""];
      assert Trim("") == "";
      assert Entries([""]) == [];
    } else {
      SplitOfJoin(entries, sep);
    }
  }

  /** The indices of the entries that survive. */
  function Survivors(entries: seq<string>): seq<nat> {
    if entries == [] then []
    else
      var n := |entries| - 1;
      Survivors(entries[..n]) + (if Represented(entries[..n], Norm(entries[n])) then [] else [n])
  }

  lemma {:induction false} SurvivorsOrdered(entries: seq<string>)
    ensures var kept := Survivors(entries);
            && |kept| == |Firsts(entries)|
            && (forall k :: 0 <= k < |kept| ==> kept[k] < |entries| && Firsts(entries)[k] == entries[kept[k]])
            && forall k, l :: 0 <= k < l < |kept| ==> kept[k] < kept[l]
  {
    if entries != [] {
      SurvivorsOrdered(entries[..|entries| - 1]);
    }
  }

  lemma {:induction false} SurvivesIff(entries: seq<string>, i: nat)
    requires i < |entries|
    ensures i in Survivors(entries) <==> !Represented(entries[..i], Norm(entries[i]))
  {
    var n := |entries| - 1;
    var front := entries[..n];
    var last := if Represented(front, Norm(entries[n])) then [] else [n];
    assert i in Survivors(entries) <==> i in Survivors(front) || i in last;
    if i < n {
      SurvivesIff(front, i);
      assert front[..i] == entries[..i];
    } else {
      SurvivorsOrdered(front);
    }
  }

  /**
   * The deduplicated entries are the entries at strictly increasing positions, namely at those
   * positions i where no entry before i is equal to entry i.
   */
  lemma FirstsAre(entries: seq<string>)
    ensures var kept := Survivors(entries);
            && |kept| == |Firsts(entries)|
            && (forall k :: 0 <= k < |kept| ==> kept[k] < |entries| && Firsts(entries)[k] == entries[kept[k]])
            && (forall k, l :: 0 <= k < l < |kept| ==> kept[k] < kept[l])
            && forall i :: 0 <= i < |entries| ==>
                 (i in kept <==> forall j :: 0 <= j < i ==> Norm(entries[j]) != Norm(entries[i]))
  {
    SurvivorsOrdered(entries);
    forall i | 0 <= i < |entries|
      ensures i in Survivors(entries) <==> forall j :: 0 <= j < i ==> Norm(entries[j]) != Norm(entries[i])
    {
      SurvivesIff(entries, i);
      var before := entries[..i];
      assert forall j :: 0 <= j < i ==> before[j] == entries[j];
    }
  }

  function Cost(parts: seq<string>): nat {
    if parts == [] then 0 else Cost(parts[..|parts| - 1]) + Units(parts[|parts| - 1]) + 1
  }

  lemma {:induction false} JoinCost(parts: seq<string>, sep: char)
    requires sep as int < 0x10000
    ensures Units(Join(parts, sep)) == if parts == [] then 0 else Cost(parts) - 1
  {
    if parts != [] {
      var front, last := parts[..|parts| - 1], parts[|parts| - 1];
      JoinCost(front, sep);
      UnitsJoin(front, last, sep);
      assert front + [last] == parts;
    }
  }

  lemma {:induction false} EntriesCost(raws: seq<string>)
    ensures Cost(Entries(raws)) <= Cost(raws)
  {
    if raws != [] {
      var front, raw := raws[..|raws| - 1], raws[|raws| - 1];
      EntriesCost(front);
      var i, j := TrimIs(raw);
      UnitsSlice(raw, i, j);
      CostSnoc(Entries(front), Trim(raw));
      assert Entries(front) + [] == Entries(front);
    }
  }

  lemma CostSnoc(parts: seq<string>, part: string)
    ensures Cost(parts + [part]) == Cost(parts) + Units(part) + 1
  {
    assert (parts + [part])[..|parts|] == parts;
  }

  lemma {:induction false} FirstsCost(entries: seq<string>)
    ensures Cost(Firsts(entries)) <= Cost(entries)
  {
    if entries != [] {
      var front, last := entries[..|entries| - 1], entries[|entries| - 1];
      FirstsCost(front);
      CostSnoc(Firsts(front), last);
      assert Firsts(front) + [] == Firsts(front);
    }
  }

  lemma DedupedShorter(value: string, sep: char)
    requires sep as int < 0x10000
    ensures Units(DedupedPath(value, sep)) <= Units(value)
  {
    var raws := Split(value, sep);
    EntriesCost(raws);
    FirstsCost(Entries(raws));
    JoinCost(DedupedEntries(value, sep), sep);
    JoinOfSplit(value, sep);
    JoinCost(raws, sep);
  }

  // ----- Merging the PATH variables -----

  function PathParts(env: Env): seq<string> {
    if env == [] then []
    else PathParts(env[..|env| - 1]) + (if IsPath(env[|env| - 1].name) then [env[|env| - 1].value] else [])
  }

  predicate HasPath(env: Env) {
    env != [] && (HasPath(env[..|env| - 1]) || IsPath(env[|env| - 1].name))
  }

  /** The first PATH variable takes this value; the others go. */
  function WithPath(env: Env, value: string): Env {
    if env == [] then []
    else
      var front, last := env[..|env| - 1], env[|env| - 1];
      WithPath(front, value)
      + (if !IsPath(last.name) then [last] else if HasPath(front) then [] else [Var(last.name, value)])
  }

  function Merged(env: Env, sep: char): Env {
    WithPath(env, DedupedPath(Join(PathParts(env), sep), sep))
  }

  lemma HasPathSnoc(env: Env, v: Var)
    ensures HasPath(env + [v]) <==> HasPath(env) || IsPath(v.name)
  {
    assert (env + [v])[..|env|] == env;
  }

  lemma SumSnoc(env: Env, v: Var)
    ensures SumSize(env + [v]) == SumSize(env) + VarSize(v) && env + [] == env
  {
    SumConcat(env, [v]);
  }

  lemma {:induction false} PathPartsEmpty(env: Env, value: string)
    ensures HasPath(env) <==> PathParts(env) != []
    ensures !HasPath(env) ==> WithPath(env, value) == env
  {
    if env != [] {
      PathPartsEmpty(env[..|env| - 1], value);
      assert env == env[..|env| - 1] + [env[|env| - 1]];
    }
  }

  /** Each further PATH variable pays for its separator. */
  lemma {:induction false} WithPathSize(env: Env, value: string)
    requires HasPath(env)
    ensures SumSize(WithPath(env, value)) + Cost(PathParts(env)) <= SumSize(env) + Units(value) + 1
  {
    var front, last := env[..|env| - 1], env[|env| - 1];
    assert env == front + [last];
    SumSnoc(front, last);
    PathPartsEmpty(front, value);
    if HasPath(front) {
      WithPathSize(front, value);
      if !IsPath(last.name) {
        SumSnoc(WithPath(front, value), last);
        assert PathParts(env) == PathParts(front);
      } else {
        CostSnoc(PathParts(front), last.value);
        assert WithPath(env, value) == WithPath(front, value);
      }
    } else {
      SumSnoc(front, Var(last.name, value));
      assert PathParts(env) == [last.value];
      CostSnoc([], last.value);
    }
  }

  lemma MergedSmaller(env: Env, sep: char)
    requires sep as int < 0x10000
    ensures BlockSize(Merged(env, sep)) <= BlockSize(env)
  {
    var raw := Join(PathParts(env), sep);
    PathPartsEmpty(env, DedupedPath(raw, sep));
    if HasPath(env) {
      WithPathSize(env, DedupedPath(raw, sep));
    }
    DedupedShorter(raw, sep);
    JoinCost(PathParts(env), sep);
  }

  lemma {:induction false} WithPathMember(env: Env, value: string, v: Var)
    ensures !IsPath(v.name) ==> (v in WithPath(env, value) <==> v in env)
    ensures IsPath(v.name) && v in WithPath(env, value) ==> v.value == value && exists w :: w in env && w.name == v.name
  {
    if env != [] {
      var front, last := env[..|env| - 1], env[|env| - 1];
      WithPathMember(front, value, v);
      assert env == front + [last];
    }
  }

  lemma {:induction false} WithPathUnique(env: Env, value: string)
    requires Unique(env)
    ensures Unique(WithPath(env, value))
    ensures forall i :: 0 <= i < |WithPath(env, value)| ==>
            exists j :: 0 <= j < |env| && env[j].name == WithPath(env, value)[i].name
  {
    if env != [] {
      var front, last := env[..|env| - 1], env[|env| - 1];
      WithPathUnique(front, value);
      var out := WithPath(env, value);
      forall i | 0 <= i < |out| ensures exists j :: 0 <= j < |env| && env[j].name == out[i].name {
        if i < |WithPath(front, value)| {
          var j :| 0 <= j < |front| && front[j].name == WithPath(front, value)[i].name;
          assert env[j].name == out[i].name;
        } else {
          assert env[|front|].name == out[i].name;
        }
      }
    }
  }

  /** After merging there is at most one PATH variable, and merging again changes nothing. */
  lemma {:induction false} WithPathSettled(env: Env, value: string)
    ensures PathParts(WithPath(env, value)) == (if HasPath(env) then [value] else [])
    ensures WithPath(WithPath(env, value), value) == WithPath(env, value)
    ensures HasPath(WithPath(env, value)) == HasPath(env)
  {
    if env != [] {
      var front, last := env[..|env| - 1], env[|env| - 1];
      assert env == front + [last];
      WithPathSettled(front, value);
      HasPathSnoc(front, last);
      var w := WithPath(front, value);
      if !IsPath(last.name) {
        Settle(w, last, value);
      } else if HasPath(front) {
        assert WithPath(env, value) == w;
      } else {
        Settle(w, Var(last.name, value), value);
      }
    }
  }

  lemma Settle(w: Env, v: Var, value: string)
    ensures PathParts(w + [v]) == PathParts(w) + (if IsPath(v.name) then [v.value] else [])
    ensures WithPath(w + [v], value)
            == WithPath(w, value) + (if !IsPath(v.name) then [v] else if HasPath(w) then [] else [Var(v.name, value)])
    ensures HasPath(w + [v]) <==> HasPath(w) || IsPath(v.name)
  {
    assert (w + [v])[..|w|] == w;
    HasPathSnoc(w, v);
  }

  lemma MergedTwice(env: Env, sep: char)
    ensures Merged(Merged(env, sep), sep) == Merged(env, sep)
  {
    var raw := Join(PathParts(env), sep);
    var value := DedupedPath(raw, sep);
    WithPathSettled(env, value);
    DedupedSplit(raw, sep);
    if HasPath(env) {
      assert Join([value], sep) == value;
    } else {
      PathPartsEmpty(env, value);
      PathPartsEmpty(env, DedupedPath(Join(PathParts(Merged(env, sep)), sep), sep));
    }
  }

  // ----- Eviction -----

  function Weight(v: Var): nat { Units(v.name) + Units(v.value) }

  function Droppable(): Var -> bool { (v: Var) => !IsProtected(v.name) }

  /** Behind everything at least as heavy: the sort is stable. */
  function InsertByWeight(sorted: seq<Var>, v: Var): seq<Var> {
    if sorted == [] then [v]
    else if Weight(sorted[0]) >= Weight(v) then [sorted[0]] + InsertByWeight(sorted[1..], v)
    else [v] + sorted
  }

  function SortByWeight(vs: seq<Var>): seq<Var> {
    if vs == [] then [] else InsertByWeight(SortByWeight(vs[..|vs| - 1]), vs[|vs| - 1])
  }

  ghost predicate Heaviest(vs: seq<Var>) {
    forall i, j :: 0 <= i < j < |vs| ==> Weight(vs[i]) >= Weight(vs[j])
  }

  lemma {:induction false} InsertMultiset(sorted: seq<Var>, v: Var)
    ensures multiset(InsertByWeight(sorted, v)) == multiset(sorted) + multiset{v}
  {
    if sorted != [] && Weight(sorted[0]) >= Weight(v) {
      InsertMultiset(sorted[1..], v);
      assert sorted == [sorted[0]] + sorted[1..];
    }
  }

  ghost predicate AtMost(vs: seq<Var>, limit: nat) {
    forall i :: 0 <= i < |vs| ==> Weight(vs[i]) <= limit
  }

  lemma AtMostCons(v: Var, vs: seq<Var>, limit: nat)
    requires AtMost(vs, limit) && Weight(v) <= limit
    ensures AtMost([v] + vs, limit)
  {
  }

  /** The weights after an insertion are bounded by what bounded them before. */
  lemma {:induction false} InsertBounded(sorted: seq<Var>, v: Var, limit: nat)
    requires Weight(v) <= limit && AtMost(sorted, limit)
    ensures AtMost(InsertByWeight(sorted, v), limit)
  {
    if sorted == [] {
    } else if Weight(sorted[0]) >= Weight(v) {
      InsertBounded(sorted[1..], v, limit);
      AtMostCons(sorted[0], InsertByWeight(sorted[1..], v), limit);
    } else {
      AtMostCons(v, sorted, limit);
    }
  }

  lemma HeaviestCons(v: Var, vs: seq<Var>)
    requires Heaviest(vs) && AtMost(vs, Weight(v))
    ensures Heaviest([v] + vs)
  {
    var out := [v] + vs;
    forall i, j | 0 <= i < j < |out| ensures Weight(out[i]) >= Weight(out[j]) {
      assert out[j] == vs[j - 1] && (i > 0 ==> out[i] == vs[i - 1]);
    }
  }

  lemma {:induction false} InsertSorts(sorted: seq<Var>, v: Var)
    requires Heaviest(sorted)
    ensures Heaviest(InsertByWeight(sorted, v))
  {
    if sorted == [] {
    } else if Weight(sorted[0]) >= Weight(v) {
      InsertSorts(sorted[1..], v);
      InsertBounded(sorted[1..], v, Weight(sorted[0]));
      HeaviestCons(sorted[0], InsertByWeight(sorted[1..], v));
    } else {
      HeaviestCons(v, sorted);
    }
  }

  lemma {:induction false} SortSorts(vs: seq<Var>)
    ensures Heaviest(SortByWeight(vs)) && multiset(SortByWeight(vs)) == multiset(vs)
  {
    if vs != [] {
      SortSorts(vs[..|vs| - 1]);
      InsertSorts(SortByWeight(vs[..|vs| - 1]), vs[|vs| - 1]);
      InsertMultiset(SortByWeight(vs[..|vs| - 1]), vs[|vs| - 1]);
      assert vs == vs[..|vs| - 1] + [vs[|vs| - 1]];
    }
  }

  /** How many candidates go before the block fits. */
  function DropCount(sorted: seq<Var>, size: int, cap: int): (n: nat)
    ensures n <= |sorted|
  {
    if sorted == [] || size <= cap then 0 else 1 + DropCount(sorted[1..], size - VarSize(sorted[0]), cap)
  }

  function Keep(dropped: seq<Var>): Var -> bool { (v: Var) => v !in dropped }

  datatype Bounded = Bounded(env: Env, dropped: seq<Var>, size: int)

  function Candidates(base: Env): seq<Var> { SortByWeight(Filter(base, Droppable())) }

  function Drops(base: Env, cap: int): seq<Var> {
    Candidates(base)[..DropCount(Candidates(base), BlockSize(base), cap)]
  }

  function Bound(env: Env, sep: char, cap: int): Bounded {
    var base := Merged(env, sep);
    var dropped := Drops(base, cap);
    Bounded(Filter(base, Keep(dropped)), dropped, BlockSize(base) - SumSize(dropped))
  }

  /** The loop stops with what is left fitting, or with nothing left to drop, and not a
      candidate earlier. */
  lemma {:induction false} DropCountStops(sorted: seq<Var>, size: int, cap: int)
    ensures var n := DropCount(sorted, size, cap);
            && (size - SumSize(sorted[..n]) <= cap || n == |sorted|)
            && (n > 0 ==> size - SumSize(sorted[..n - 1]) > cap)
    decreases |sorted|
  {
    if sorted != [] && size > cap {
      var n := DropCount(sorted, size, cap);
      DropCountStops(sorted[1..], size - VarSize(sorted[0]), cap);
      assert sorted[..n][1..] == sorted[1..][..n - 1];
      if n > 1 {
        assert sorted[..n - 1][1..] == sorted[1..][..n - 2];
      }
    }
  }

  /** A larger cap drops no more. */
  lemma {:induction false} DropCountMonotone(sorted: seq<Var>, size: int, low: int, high: int)
    requires low <= high
    ensures DropCount(sorted, size, high) <= DropCount(sorted, size, low)
    decreases |sorted|
  {
    if sorted != [] && size > high {
      DropCountMonotone(sorted[1..], size - VarSize(sorted[0]), low, high);
    }
  }

  // ----- What bounding does -----

  lemma {:induction false} FilterMultiplicity(s: seq<Var>, p: Var -> bool, x: Var)
    ensures multiset(Filter(s, p))[x] == if p(x) then multiset(s)[x] else 0
  {
    if s != [] {
      var front, last := s[..|s| - 1], s[|s| - 1];
      FilterMultiplicity(front, p, x);
      assert s == front + [last];
    }
  }

  lemma {:induction false} NoDuplicates(env: Env, x: Var)
    requires Unique(env)
    ensures multiset(env)[x] <= 1
  {
    if env != [] {
      var front, last := env[..|env| - 1], env[|env| - 1];
      NoDuplicates(front, x);
      assert env == front + [last];
      forall i | 0 <= i < |front| ensures front[i] != last { assert env[i].name != env[|front|].name; }
    }
  }

  lemma {:induction false} SumPermutation(a: seq<Var>, b: seq<Var>)
    requires multiset(a) == multiset(b)
    ensures SumSize(a) == SumSize(b)
  {
    if a == [] {
      assert |b| == |multiset(b)| == 0;
    } else {
      var x, u := a[0], a[1..];
      assert a == [x] + u;
      assert x in multiset(b);
      var i :| 0 <= i < |b| && b[i] == x;
      var l, r := b[..i], b[i + 1..];
      assert b == l + ([x] + r);
      assert multiset(l + r) == multiset(l) + multiset(r) == multiset(b) - multiset{x};
      assert multiset(u) == multiset(a) - multiset{x};
      SumPermutation(u, l + r);
      SumConcat(l, [x] + r);
      SumConcat([x], r);
      SumConcat(l, r);
    }
  }

  /** What is dropped comes out of the merged variables, each once. */
  lemma DroppedParts(base: Env, dropped: seq<Var>, rest: seq<Var>)
    requires Unique(base) && multiset(dropped) + multiset(rest) == multiset(Filter(base, Droppable()))
    ensures multiset(base) == multiset(Filter(base, Keep(dropped))) + multiset(dropped)
  {
    forall x ensures multiset(base)[x] == multiset(Filter(base, Keep(dropped)))[x] + multiset(dropped)[x] {
      NoDuplicates(base, x);
      FilterMultiplicity(base, Droppable(), x);
      FilterMultiplicity(base, Keep(dropped), x);
      assert multiset(dropped)[x] + multiset(rest)[x] == multiset(Filter(base, Droppable()))[x];
      assert x in dropped <==> multiset(dropped)[x] > 0;
    }
  }

  /** The size kept by subtraction is that of the variables left. */
  lemma EvictedSize(base: Env, cap: int)
    requires Unique(base)
    ensures var dropped := Drops(base, cap);
            BlockSize(base) - SumSize(dropped) == BlockSize(Filter(base, Keep(dropped)))
  {
    var sorted, dropped := Candidates(base), Drops(base, cap);
    SortSorts(Filter(base, Droppable()));
    assert sorted == dropped + sorted[|dropped|..];
    DroppedParts(base, dropped, sorted[|dropped|..]);
    SumPermutation(base, Filter(base, Keep(dropped)) + dropped);
    SumConcat(Filter(base, Keep(dropped)), dropped);
  }

  lemma BoundSize(env: Env, sep: char, cap: int)
    requires Unique(env) && sep as int < 0x10000
    ensures var b := Bound(env, sep, cap); b.size == BlockSize(b.env) <= BlockSize(env)
  {
    WithPathUnique(env, DedupedPath(Join(PathParts(env), sep), sep));
    EvictedSize(Merged(env, sep), cap);
    MergedSmaller(env, sep);
  }

  lemma CandidateMember(base: Env, v: Var)
    ensures v in SortByWeight(Filter(base, Droppable())) <==> v in base && !IsProtected(v.name)
  {
    SortSorts(Filter(base, Droppable()));
    FilterMember(base, Droppable(), v);
    assert v in SortByWeight(Filter(base, Droppable())) <==> v in multiset(SortByWeight(Filter(base, Droppable())));
  }

  /** A variable of the merged environment is kept or dropped; only unprotected ones are dropped. */
  lemma KeptOrDropped(env: Env, sep: char, cap: int, v: Var)
    ensures var b, base := Bound(env, sep, cap), Merged(env, sep);
            && (v in b.env <==> v in base && v !in b.dropped)
            && (v in b.dropped ==> v in base && !IsProtected(v.name))
  {
    var b, base := Bound(env, sep, cap), Merged(env, sep);
    FilterMember(base, Keep(b.dropped), v);
    CandidateMember(base, v);
    if v in b.dropped {
      assert v in SortByWeight(Filter(base, Droppable()));
    }
  }

  /** The cap is met, or only protected variables remain. */
  lemma BoundFits(env: Env, sep: char, cap: int, v: Var)
    ensures var b := Bound(env, sep, cap); v in b.env && b.size > cap ==> IsProtected(v.name)
  {
    var b, base := Bound(env, sep, cap), Merged(env, sep);
    var sorted := SortByWeight(Filter(base, Droppable()));
    DropCountStops(sorted, BlockSize(base), cap);
    KeptOrDropped(env, sep, cap, v);
    CandidateMember(base, v);
    if b.size > cap {
      assert |b.dropped| == |sorted|;
      assert b.dropped == sorted;
    }
  }

  /** Nothing was dropped in vain: the block with the last dropped variable restored is over the cap. */
  lemma BoundMinimal(env: Env, sep: char, cap: int)
    ensures var b := Bound(env, sep, cap); b.dropped != [] ==> b.size + VarSize(b.dropped[|b.dropped| - 1]) > cap
  {
    LastDropped(Merged(env, sep), cap);
  }

  lemma LastDropped(base: Env, cap: int)
    ensures var dropped := Drops(base, cap);
            dropped != [] ==> BlockSize(base) - SumSize(dropped) + VarSize(dropped[|dropped| - 1]) > cap
  {
    LastDrop(Candidates(base), BlockSize(base), cap);
  }

  lemma LastDrop(sorted: seq<Var>, size: int, cap: int)
    ensures var dropped := sorted[..DropCount(sorted, size, cap)];
            dropped != [] ==> size - SumSize(dropped) + VarSize(dropped[|dropped| - 1]) > cap
  {
    var n := DropCount(sorted, size, cap);
    if n > 0 {
      DropCountStops(sorted, size, cap);
      assert sorted[..n] == sorted[..n - 1] + [sorted[n - 1]];
      SumSnoc(sorted[..n - 1], sorted[n - 1]);
    }
  }

  /** Largest first: whatever was dropped is at least as large, name and value together, as every
      unprotected variable kept, and the dropped ones are listed largest first. */
  lemma BoundLargestFirst(env: Env, sep: char, cap: int, d: Var, v: Var)
    ensures var b := Bound(env, sep, cap);
            d in b.dropped && v in b.env && !IsProtected(v.name) ==>
              Units(d.name) + Units(d.value) >= Units(v.name) + Units(v.value)
    ensures var dropped := Bound(env, sep, cap).dropped;
            forall i, j :: 0 <= i < j < |dropped| ==>
              Units(dropped[i].name) + Units(dropped[i].value) >= Units(dropped[j].name) + Units(dropped[j].value)
  {
    var b, base := Bound(env, sep, cap), Merged(env, sep);
    var sorted := SortByWeight(Filter(base, Droppable()));
    SortSorts(Filter(base, Droppable()));
    KeptOrDropped(env, sep, cap, v);
    CandidateMember(base, v);
    if d in b.dropped && v in b.env && !IsProtected(v.name) {
      HeaviestSplit(sorted, |b.dropped|, d, v);
    }
  }

  lemma HeaviestSplit(sorted: seq<Var>, n: nat, d: Var, v: Var)
    requires Heaviest(sorted) && n <= |sorted| && d in sorted[..n] && v in sorted && v !in sorted[..n]
    ensures Weight(d) >= Weight(v)
  {
    var i :| 0 <= i < n && sorted[..n][i] == d;
    assert sorted == sorted[..n] + sorted[n..];
    var j :| 0 <= j < |sorted| - n && sorted[n..][j] == v;
    assert sorted[i] == d && sorted[n + j] == v;
  }

  /** Only PATH changes its value. Protected variables other than PATH stay; unprotected ones
      stay or are reported as dropped; nothing is invented. */
  lemma BoundKeeps(env: Env, sep: char, cap: int, v: Var)
    requires !IsPath(v.name)
    ensures var b := Bound(env, sep, cap);
            && (v in b.env ==> v in env)
            && (v in env && IsProtected(v.name) ==> v in b.env)
            && (v in env ==> v in b.env || v in b.dropped)
            && (v in b.dropped ==> v in env && !IsProtected(v.name))
  {
    KeptOrDropped(env, sep, cap, v);
    WithPathMember(env, DedupedPath(Join(PathParts(env), sep), sep), v);
  }

  // ----- Bounding again, and bounding less -----

  lemma {:induction false} KeepsPaths(base: Env, p: Var -> bool)
    requires forall v :: v in base && IsPath(v.name) ==> p(v)
    ensures PathParts(Filter(base, p)) == PathParts(base) && HasPath(Filter(base, p)) == HasPath(base)
  {
    if base != [] {
      var front, last := base[..|base| - 1], base[|base| - 1];
      assert base == front + [last];
      KeepsPaths(front, p);
      HasPathSnoc(front, last);
      HasPathSnoc(Filter(front, p), last);
      Settle(Filter(front, p), last, "");
      assert Filter(front, p) + [] == Filter(front, p);
    }
  }

  /** Being its own merge, taken apart at the last variable. */
  lemma MergedFront(front: Env, last: Var, value: string)
    requires WithPath(front + [last], value) == front + [last]
    ensures WithPath(front, value) == front
    ensures IsPath(last.name) ==> !HasPath(front) && last.value == value
  {
    var tail := if !IsPath(last.name) then [last] else if HasPath(front) then [] else [Var(last.name, value)];
    Settle(front, last, value);
    WithPathLength(front, value);
    assert |tail| == 1;
    assert (front + [last])[..|front|] == (WithPath(front, value) + tail)[..|front|];
    assert (front + [last])[|front|] == (WithPath(front, value) + tail)[|front|];
  }

  /** An environment whose PATH is merged already is its own merge, whatever else is filtered out. */
  lemma {:induction false} FilterOfMerged(base: Env, value: string, p: Var -> bool)
    requires WithPath(base, value) == base
    requires forall v :: v in base && IsPath(v.name) ==> p(v)
    ensures WithPath(Filter(base, p), value) == Filter(base, p)
  {
    if base != [] {
      var front, last := base[..|base| - 1], base[|base| - 1];
      assert base == front + [last];
      MergedFront(front, last, value);
      FilterOfMerged(front, value, p);
      KeepsPaths(front, p);
      FilterSnoc(front, last, p);
      var kept := Filter(front, p);
      Settle(kept, last, value);
      if !p(last) {
        assert Filter(base, p) == kept;
      }
    }
  }

  lemma {:induction false} WithPathLength(env: Env, value: string)
    ensures |WithPath(env, value)| <= |env|
  {
    if env != [] {
      WithPathLength(env[..|env| - 1], value);
    }
  }

  lemma BoundMerged(env: Env, sep: char, cap: int)
    ensures Merged(Bound(env, sep, cap).env, sep) == Bound(env, sep, cap).env
  {
    var b, base := Bound(env, sep, cap), Merged(env, sep);
    var keep := Keep(b.dropped);
    forall v | v in base && IsPath(v.name) ensures keep(v) {
      KeptOrDropped(env, sep, cap, v);
      PathProtected(v.name);
    }
    MergedTwice(env, sep);
    KeepsPaths(base, keep);
    FilterOfMerged(base, DedupedPath(Join(PathParts(base), sep), sep), keep);
  }

  /** Bounding a bounded environment changes nothing and drops nothing. */
  lemma BoundIdempotent(env: Env, sep: char, cap: int)
    requires Unique(env) && sep as int < 0x10000
    ensures var b := Bound(env, sep, cap); Bound(b.env, sep, cap) == Bounded(b.env, [], b.size)
  {
    var b := Bound(env, sep, cap);
    BoundMerged(env, sep, cap);
    BoundSize(env, sep, cap);
    var candidates := Filter(b.env, Droppable());
    if b.size > cap {
      if candidates != [] {
        FilterMember(b.env, Droppable(), candidates[0]);
        BoundFits(env, sep, cap, candidates[0]);
      }
    }
    assert SortByWeight(candidates)[..0] == [];
    FilterEverything(b.env, Keep([]));
  }

  lemma {:induction false} FilterEverything(env: Env, p: Var -> bool)
    requires forall v :: p(v)
    ensures Filter(env, p) == env
  {
    if env != [] {
      FilterEverything(env[..|env| - 1], p);
    }
  }

  /** The drop list for a larger cap is a prefix of the one for a smaller cap. */
  lemma BoundMonotone(env: Env, sep: char, low: int, high: int)
    requires low <= high
    ensures Bound(env, sep, high).dropped <= Bound(env, sep, low).dropped
  {
    var base := Merged(env, sep);
    DropCountMonotone(SortByWeight(Filter(base, Droppable())), BlockSize(base), low, high);
  }
}
