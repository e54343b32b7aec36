/** The bounding rule as it runs, its report, and the GOMAXPROCS default applied after it. */
module ChildEnvBounding {
  import opened Util
  import opened Text
  import opened ChildEnv

  // ----- The method -----

  /** An input object may hold undefined values; they are left out. */
  datatype Given = Given(name: string, value: Option<string>)

  function Defined(given: seq<Given>): Env {
    if given == [] then []
    else
      var last := given[|given| - 1];
      Defined(given[..|given| - 1]) + (if last.value.Some? then [Var(last.name, last.value.value)] else [])
  }

  ghost predicate UniqueGiven(given: seq<Given>) {
    forall i, j :: 0 <= i < j < |given| ==> given[i].name != given[j].name
  }

  lemma {:induction false} DefinedUnique(given: seq<Given>)
    requires UniqueGiven(given)
    ensures Unique(Defined(given))
    ensures forall v :: v in Defined(given) ==> exists i :: 0 <= i < |given| && given[i].name == v.name
  {
    if given != [] {
      var front, last := given[..|given| - 1], given[|given| - 1];
      DefinedUnique(front);
      forall v | v in Defined(given) ensures exists i :: 0 <= i < |given| && given[i].name == v.name {
        if v in Defined(front) {
          var i :| 0 <= i < |front| && front[i].name == v.name;
          assert given[i].name == v.name;
        } else {
          assert given[|front|].name == v.name;
        }
      }
      forall i | 0 <= i < |Defined(front)| ensures Defined(front)[i].name != last.name {
        assert Defined(front)[i] in Defined(front);
      }
    }
  }

  datatype Report = Report(sizeBefore: nat, sizeAfter: int, pathEntriesBefore: nat, pathEntriesAfter: nat,
                           dropped: seq<string>, overCap: bool)

  function RawPath(env: Env, sep: char): string { Join(PathParts(env), sep) }

  function NamesOf(vs: seq<Var>): seq<string> { Map(vs, (v: Var) => v.name) }

  /** Where the first PATH variable is. */
  function PathAt(env: Env): nat
    requires HasPath(env)
    ensures PathAt(env) < |env| && IsPath(env[PathAt(env)].name)
  {
    var front := env[..|env| - 1];
    if HasPath(front) then PathAt(front) else |front|
  }

  lemma PathAtSnoc(env: Env, v: Var)
    requires HasPath(env)
    ensures HasPath(env + [v]) && PathAt(env + [v]) == PathAt(env)
  {
    assert (env + [v])[..|env|] == env;
  }

  lemma PathAtEnd(env: Env, v: Var)
    requires !HasPath(env) && IsPath(v.name)
    ensures HasPath(env + [v]) && PathAt(env + [v]) == |env|
  {
    assert (env + [v])[..|env|] == env;
  }

  function Write(w: Env, value: string): Env
    requires HasPath(w)
  {
    w[PathAt(w) := Var(w[PathAt(w)].name, value)]
  }

  lemma WriteSnoc(w: Env, v: Var, value: string)
    requires HasPath(w)
    ensures HasPath(w + [v]) && Write(w + [v], value) == Write(w, value) + [v]
  {
    PathAtSnoc(w, v);
  }

  lemma WriteEnd(w: Env, name: string, a: string, b: string)
    requires !HasPath(w) && IsPath(name)
    ensures HasPath(w + [Var(name, a)]) && Write(w + [Var(name, a)], b) == w + [Var(name, b)]
  {
    PathAtEnd(w, Var(name, a));
  }

  /** Writing a value into the merged PATH variable afterwards is merging with that value. */
  lemma {:induction false} WithPathWrite(env: Env, a: string, b: string)
    requires HasPath(env)
    ensures HasPath(WithPath(env, a)) && Write(WithPath(env, a), b) == WithPath(env, b)
  {
    var front, last := env[..|env| - 1], env[|env| - 1];
    assert env == front + [last];
    HasPathSnoc(front, last);
    if HasPath(front) {
      WithPathWrite(front, a, b);
      if !IsPath(last.name) {
        WriteSnoc(WithPath(front, a), last, b);
      } else {
        assert WithPath(env, a) == WithPath(front, a) && WithPath(env, b) == WithPath(front, b);
      }
    } else {
      PathPartsEmpty(front, a);
      PathPartsEmpty(front, b);
      WriteEnd(front, last.name, a, b);
    }
  }

  /** The loop over the entries, i of them done: PATH has its place and no value yet. */
  ghost predicate Merging(done: Env, out: Env, pathAt: Option<nat>, pathParts: seq<string>) {
    && out == WithPath(done, "") && pathParts == PathParts(done) && HasPath(out) == HasPath(done)
    && pathAt == if HasPath(out) then Some(PathAt(out)) else None
  }

  lemma MergingPath(done: Env, out: Env, pathAt: Option<nat>, pathParts: seq<string>, v: Var)
    requires Merging(done, out, pathAt, pathParts) && IsPath(v.name)
    ensures pathAt.Some? ==> Merging(done + [v], out, pathAt, pathParts + [v.value])
    ensures pathAt.None? ==> Merging(done + [v], out + [Var(v.name, "")], Some(|out|), pathParts + [v.value])
  {
    Settle(done, v, "");
    if pathAt.None? {
      PathAtEnd(out, Var(v.name, ""));
    } else {
      assert WithPath(done + [v], "") == out;
    }
  }

  lemma MergingOther(done: Env, out: Env, pathAt: Option<nat>, pathParts: seq<string>, v: Var)
    requires Merging(done, out, pathAt, pathParts) && !IsPath(v.name)
    ensures Merging(done + [v], out + [v], pathAt, pathParts)
  {
    Settle(done, v, "");
    HasPathSnoc(out, v);
    if HasPath(out) {
      PathAtSnoc(out, v);
    }
  }

  method CollectPaths(input: Env) returns (out: Env, pathAt: Option<nat>, pathParts: seq<string>)
    ensures Merging(input, out, pathAt, pathParts)
  {
    out, pathAt, pathParts := [], None, [];
    for i := 0 to |input|
      invariant Merging(input[..i], out, pathAt, pathParts)
    {
      var v := input[i];
      assert input[..i + 1] == input[..i] + [v];
      if IsPath(v.name) {
        MergingPath(input[..i], out, pathAt, pathParts, v);
        if pathAt.None? {
          pathAt := Some(|out|);
          out := out + [Var(v.name, "")];
        }
        pathParts := pathParts + [v.value];
        continue;
      }
      MergingOther(input[..i], out, pathAt, pathParts, v);
      out := out + [v];
    }
    assert input[..|input|] == input;
  }

  method MergePaths(input: Env, sep: char) returns (out: Env, before: nat, after: nat)
    ensures out == Merged(input, sep)
    ensures before == |Entries(Split(RawPath(input, sep), sep))|
    ensures after == if HasPath(input) then |DedupedEntries(RawPath(input, sep), sep)| else 0
  {
    var pathAt, pathParts;
    out, pathAt, pathParts := CollectPaths(input);
    var rawPath := Join(pathParts, sep);
    before := CountEntries(rawPath, sep);
    after := 0;
    if pathAt.Some? {
      var value := DedupePathValue(rawPath, sep);
      WithPathWrite(input, "", value);
      DedupedSplit(rawPath, sep);
      out := out[pathAt.value := Var(out[pathAt.value].name, value)];
      after := if value != "" then |Split(value, sep)| else 0;
    } else {
      PathPartsEmpty(input, "");
      PathPartsEmpty(input, DedupedPath(rawPath, sep));
    }
  }

  /** rawPath.split(sep).filter(e => e.trim()).length */
  method CountEntries(rawPath: string, sep: char) returns (n: nat)
    ensures n == |Entries(Split(rawPath, sep))|
  {
    var raws := Split(rawPath, sep);
    n := 0;
    for i := 0 to |raws|
      invariant n == |Entries(raws[..i])|
    {
      assert raws[..i + 1][..i] == raws[..i];
      if Trim(raws[i]) != "" {
        n := n + 1;
      }
    }
    assert raws[..|raws|] == raws;
  }

  method SortCandidates(vs: seq<Var>) returns (sorted: seq<Var>)
    ensures sorted == SortByWeight(vs)
  {
    sorted := [];
    for i := 0 to |vs|
      invariant sorted == SortByWeight(vs[..i])
    {
      assert vs[..i + 1][..i] == vs[..i];
      sorted := InsertByWeight(sorted, vs[i]);
    }
    assert vs[..|vs|] == vs;
  }

  function NotNamed(name: string): Var -> bool { (x: Var) => x.name != name }

  /** Deleting the key of a candidate removes exactly that variable. */
  lemma DeleteKey(base: Env, dropped: seq<Var>, v: Var)
    requires Unique(base) && v in base
    ensures Filter(Filter(base, Keep(dropped)), NotNamed(v.name)) == Filter(base, Keep(dropped + [v]))
  {
    var other := NotNamed(v.name);
    var i :| 0 <= i < |base| && base[i] == v;
    forall x | x in base ensures Keep(dropped + [v])(x) == (Keep(dropped)(x) && other(x)) {
      var j :| 0 <= j < |base| && base[j] == x;
      if x.name == v.name {
        if i < j {
        } else if j < i {
        }
        assert i == j;
      }
    }
    FilterFilter(base, Keep(dropped), other, Keep(dropped + [v]));
  }

  /** i candidates are gone and accounted for. */
  ghost predicate Evicting(base: Env, candidates: seq<Var>, i: nat, out: Env, dropped: seq<Var>, size: int) {
    i <= |candidates| && dropped == candidates[..i] && out == Filter(base, Keep(dropped))
    && size == BlockSize(base) - SumSize(dropped)
  }

  lemma EvictStart(base: Env, candidates: seq<Var>)
    ensures Evicting(base, candidates, 0, base, [], BlockSize(base))
    ensures candidates[0..] == candidates
  {
    FilterEverything(base, Keep([]));
  }

  lemma EvictTurn(base: Env, candidates: seq<Var>, i: nat, out: Env, dropped: seq<Var>, size: int, v: Var)
    requires Unique(base) && i < |candidates| && v == candidates[i] && v in base
    requires Evicting(base, candidates, i, out, dropped, size)
    ensures Evicting(base, candidates, i + 1, Filter(out, NotNamed(v.name)), dropped + [v], size - VarSize(v))
  {
    assert candidates[..i] + [v] == candidates[..i + 1];
    SumSnoc(dropped, v);
    DeleteKey(base, dropped, v);
  }

  lemma DropOne(candidates: seq<Var>, i: nat, size: int, cap: int)
    requires i < |candidates| && size > cap
    ensures DropCount(candidates[i..], size, cap)
            == 1 + DropCount(candidates[i + 1..], size - VarSize(candidates[i]), cap)
  {
    assert candidates[i..][0] == candidates[i] && candidates[i..][1..] == candidates[i + 1..];
  }

  /** Before turn i of the loop: nothing but the candidates so far is due to go. */
  ghost predicate Turn(base: Env, candidates: seq<Var>, cap: int, i: nat, out: Env, dropped: seq<Var>, size: int) {
    && Evicting(base, candidates, i, out, dropped, size)
    && DropCount(candidates, BlockSize(base), cap) == i + DropCount(candidates[i..], size, cap)
  }

  lemma LastTurn(base: Env, candidates: seq<Var>, cap: int, i: nat, out: Env, dropped: seq<Var>, size: int)
    requires Turn(base, candidates, cap, i, out, dropped, size) && (size <= cap || i == |candidates|)
    ensures Evicting(base, candidates, DropCount(candidates, BlockSize(base), cap), out, dropped, size)
  {
  }

  method EvictOne(base: Env, candidates: seq<Var>, cap: int, i: nat, out: Env, dropped: seq<Var>, size: int)
    returns (out': Env, dropped': seq<Var>, size': int)
    requires Unique(base) && i < |candidates| && candidates[i] in base && size > cap
    requires Turn(base, candidates, cap, i, out, dropped, size)
    ensures Turn(base, candidates, cap, i + 1, out', dropped', size')
  {
    var v := candidates[i];
    EvictTurn(base, candidates, i, out, dropped, size, v);
    DropOne(candidates, i, size, cap);
    size' := size - (Units(v.name) + 1 + Units(v.value) + 1);
    out' := Filter(out, NotNamed(v.name));
    dropped' := dropped + [v];
  }

  /** for (const k of candidates) { if (size <= cap) break; ... } */
  method EvictLoop(base: Env, candidates: seq<Var>, cap: int) returns (out: Env, dropped: seq<Var>, size: int)
    requires Unique(base) && forall i :: 0 <= i < |candidates| ==> candidates[i] in base
    ensures Evicting(base, candidates, DropCount(candidates, BlockSize(base), cap), out, dropped, size)
  {
    out, dropped := base, [];
    size := EnvBlockSize(base);
    EvictStart(base, candidates);
    for i := 0 to |candidates|
      invariant Turn(base, candidates, cap, i, out, dropped, size)
    {
      if size <= cap {
        LastTurn(base, candidates, cap, i, out, dropped, size);
        return;
      }
      out, dropped, size := EvictOne(base, candidates, cap, i, out, dropped, size);
    }
    LastTurn(base, candidates, cap, |candidates|, out, dropped, size);
  }

  method Evict(base: Env, cap: int) returns (out: Env, dropped: seq<Var>, size: int)
    requires Unique(base)
    ensures dropped == Drops(base, cap)
    ensures out == Filter(base, Keep(dropped)) && size == BlockSize(base) - SumSize(dropped)
  {
    out, dropped := base, [];
    size := EnvBlockSize(base);
    EvictStart(base, Candidates(base));
    if size > cap {
      var candidates := SortCandidates(Filter(base, Droppable()));
      forall i | 0 <= i < |candidates| ensures candidates[i] in base {
        CandidateMember(base, candidates[i]);
      }
      out, dropped, size := EvictLoop(base, candidates, cap);
    }
  }

  method CopyDefined(given: seq<Given>) returns (input: Env)
    ensures input == Defined(given)
  {
    input := [];
    for i := 0 to |given|
      invariant input == Defined(given[..i])
    {
      assert given[..i + 1][..i] == given[..i];
      if given[i].value.Some? {
        input := input + [Var(given[i].name, given[i].value.value)];
      }
    }
    assert given[..|given|] == given;
  }

  method BoundChildEnv(given: seq<Given>, sep: char := ';', cap: int := CHILD_ENV_BLOCK_CAP_CHARS)
    returns (out: Env, report: Report)
    requires UniqueGiven(given)
    ensures var env := Defined(given);
            var b := Bound(env, sep, cap);
            && out == b.env
            && report == Report(BlockSize(env), b.size, |Entries(Split(RawPath(env, sep), sep))|,
                                if HasPath(env) then |DedupedEntries(RawPath(env, sep), sep)| else 0,
                                NamesOf(b.dropped), b.size > cap)
  {
    var input := CopyDefined(given);
    DefinedUnique(given);
    WithPathUnique(input, DedupedPath(RawPath(input, sep), sep));
    var sizeBefore := EnvBlockSize(input);
    var base, before, after := MergePaths(input, sep);
    var dropped, size;
    out, dropped, size := Evict(base, cap);
    report := Report(sizeBefore, size, before, after, NamesOf(dropped), size > cap);
  }

  // ----- The GOMAXPROCS default -----

  const GO_MAXPROCS_VAR := "GOMAXPROCS"
  const GO_MAXPROCS_WINDOWS_DEFAULT := "1"

  predicate IsGo(name: string) { Upper(name) == GO_MAXPROCS_VAR }

  /** The first variable that is GOMAXPROCS up to case. */
  function FindGo(env: Env): (r: Option<nat>)
    ensures r.Some? ==> r.value < |env| && IsGo(env[r.value].name)
    ensures r.Some? ==> forall j :: 0 <= j < r.value ==> !IsGo(env[j].name)
    ensures r.None? ==> forall j :: 0 <= j < |env| ==> !IsGo(env[j].name)
  {
    if env == [] then None
    else if IsGo(env[0].name) then Some(0)
    else match FindGo(env[1..]) case None => None case Some(i) => Some(i + 1)
  }

  /** obj[name] = value: in place when the key exists, at the end otherwise. */
  function Assign(env: Env, name: string, value: string): Env {
    if env == [] then [Var(name, value)]
    else if env[0].name == name then [Var(name, value)] + env[1..]
    else [env[0]] + Assign(env[1..], name, value)
  }

  function WithGoMaxProcsDefault(env: Env): Env {
    match FindGo(env)
    case None => Assign(env, GO_MAXPROCS_VAR, GO_MAXPROCS_WINDOWS_DEFAULT)
    case Some(i) =>
      if env[i].value != "" then env
      else Assign(env[..i] + env[i + 1..], GO_MAXPROCS_VAR, GO_MAXPROCS_WINDOWS_DEFAULT)
  }

  lemma {:induction false} AssignSize(env: Env, name: string, value: string)
    ensures SumSize(Assign(env, name, value)) <= SumSize(env) + VarSize(Var(name, value))
  {
    if env != [] && env[0].name != name {
      AssignSize(env[1..], name, value);
    }
  }

  lemma DefaultSize()
    ensures VarSize(Var(GO_MAXPROCS_VAR, GO_MAXPROCS_WINDOWS_DEFAULT)) == 13
  {
    var s := GO_MAXPROCS_VAR;
    assert s == "GOMAXPROC" + ['S'] && Units("1") == 1;
    SmallUnits(s);
  }

  lemma {:induction false} SmallUnits(s: string)
    requires forall i :: 0 <= i < |s| ==> s[i] as int < 0x10000
    ensures Units(s) == |s|
  {
    if s != [] {
      SmallUnits(s[..|s| - 1]);
    }
  }

  lemma DefaultGrowth(env: Env)
    ensures BlockSize(WithGoMaxProcsDefault(env)) <= BlockSize(env) + 13
  {
    DefaultSize();
    var go := FindGo(env);
    if go.None? {
      AssignSize(env, GO_MAXPROCS_VAR, GO_MAXPROCS_WINDOWS_DEFAULT);
    } else if env[go.value].value == "" {
      var i := go.value;
      var rest := env[..i] + env[i + 1..];
      AssignSize(rest, GO_MAXPROCS_VAR, GO_MAXPROCS_WINDOWS_DEFAULT);
      assert env == env[..i] + ([env[i]] + env[i + 1..]);
      SumConcat(env[..i], [env[i]] + env[i + 1..]);
      SumConcat([env[i]], env[i + 1..]);
      SumConcat(env[..i], env[i + 1..]);
    }
  }

  /** A block that was brought under the cap stays within 13 of it with the default added. */
  lemma BoundedThenDefaulted(env: Env, sep: char, cap: int)
    requires Unique(env) && sep as int < 0x10000 && Bound(env, sep, cap).size <= cap
    ensures BlockSize(WithGoMaxProcsDefault(Bound(env, sep, cap).env)) <= cap + 13
  {
    BoundSize(env, sep, cap);
    DefaultGrowth(Bound(env, sep, cap).env);
  }

  /** With the default cap and separator that is 32780 units. */
  lemma CleanEnvFits(env: Env)
    requires Unique(env) && Bound(env, ';', CHILD_ENV_BLOCK_CAP_CHARS).size <= CHILD_ENV_BLOCK_CAP_CHARS
    ensures BlockSize(Bound(env, ';', CHILD_ENV_BLOCK_CAP_CHARS).env) <= 32767
    ensures BlockSize(WithGoMaxProcsDefault(Bound(env, ';', CHILD_ENV_BLOCK_CAP_CHARS).env)) <= 32780
  {
    BoundSize(env, ';', CHILD_ENV_BLOCK_CAP_CHARS);
    BoundedThenDefaulted(env, ';', CHILD_ENV_BLOCK_CAP_CHARS);
  }

  lemma {:induction false} AssignMember(env: Env, name: string, value: string, v: Var)
    requires Unique(env)
    ensures v in Assign(env, name, value) <==> v == Var(name, value) || (v in env && v.name != name)
  {
    if env != [] {
      assert env == [env[0]] + env[1..];
      AssignMember(env[1..], name, value, v);
      if env[0].name == name {
        assert forall i :: 1 <= i < |env| ==> env[i].name != name;
      }
    }
  }

  lemma RestMember(env: Env, i: nat, v: Var)
    requires Unique(env) && i < |env|
    ensures Unique(env[..i] + env[i + 1..])
    ensures v in env[..i] + env[i + 1..] <==> v in env && v != env[i]
  {
    assert env == env[..i] + ([env[i]] + env[i + 1..]);
    assert v in env <==> v in env[..i] || v == env[i] || v in env[i + 1..];
    if v == env[i] {
      assert v !in env[..i] && v !in env[i + 1..];
    }
  }

  /** The rule reads the first spelling only: it leaves the environment alone exactly when that
      one is there and not empty. */
  lemma UntouchedIff(env: Env)
    requires Unique(env)
    ensures WithGoMaxProcsDefault(env) == env <==> FindGo(env).Some? && env[FindGo(env).value].value != ""
  {
    var go := FindGo(env);
    if go.None? {
      AssignMember(env, GO_MAXPROCS_VAR, GO_MAXPROCS_WINDOWS_DEFAULT, DefaultVar());
      assert DefaultVar() !in env by {
        if k :| 0 <= k < |env| && env[k] == DefaultVar() { assert IsGo(env[k].name); }
      }
    } else if env[go.value].value == "" {
      var empty := env[go.value];
      RestMember(env, go.value, empty);
      AssignMember(env[..go.value] + env[go.value + 1..], GO_MAXPROCS_VAR, GO_MAXPROCS_WINDOWS_DEFAULT, empty);
      assert empty in env && empty !in WithGoMaxProcsDefault(env);
    }
  }

  function DefaultVar(): Var { Var(GO_MAXPROCS_VAR, GO_MAXPROCS_WINDOWS_DEFAULT) }

  /** The non-empty values an operator gave, in any spelling, are exactly those of the result:
      none is overwritten, and no default is written beside one. */
  ghost predicate Honoured(env: Env) {
    forall v: Var :: IsGo(v.name) && v.value != "" ==> (v in WithGoMaxProcsDefault(env) <==> v in env)
  }

  /** "An existing GoMaxProcs is honoured rather than duplicated" holds of an operator's value
      exactly when the first spelling is not empty, or the operator's own value is the default. */
  lemma HonouredIff(env: Env, given: Var)
    requires Unique(env) && given in env && IsGo(given.name) && given.value != ""
    ensures Honoured(env) <==> env[FindGo(env).value].value != "" || DefaultVar() in env
  {
    var k :| 0 <= k < |env| && env[k] == given;
    if env[FindGo(env).value].value == "" {
      Defaulted(env, DefaultVar());
      assert IsGo(DefaultVar().name);
      if DefaultVar() in env {
        forall v: Var | IsGo(v.name) && v.value != "" ensures v in WithGoMaxProcsDefault(env) <==> v in env {
          Defaulted(env, v);
          if v in env && v.name == GO_MAXPROCS_VAR {
            OneValue(env, v, DefaultVar());
          }
        }
      }
    }
  }

  /** The variables of an environment whose first spelling was empty. */
  lemma Defaulted(env: Env, v: Var)
    requires Unique(env) && FindGo(env).Some? && env[FindGo(env).value].value == ""
    ensures v in WithGoMaxProcsDefault(env)
            <==> v == DefaultVar() || (v in env && v != env[FindGo(env).value] && v.name != GO_MAXPROCS_VAR)
  {
    var i := FindGo(env).value;
    RestMember(env, i, v);
    AssignMember(env[..i] + env[i + 1..], GO_MAXPROCS_VAR, GO_MAXPROCS_WINDOWS_DEFAULT, v);
  }

  lemma OneValue(env: Env, v: Var, w: Var)
    requires Unique(env) && v in env && w in env && v.name == w.name
    ensures v == w
  {
    var i :| 0 <= i < |env| && env[i] == v;
    var j :| 0 <= j < |env| && env[j] == w;
    if i < j {
    } else if j < i {
    }
  }

  /** What becomes of one value: it is overwritten exactly when the first spelling is empty and it
      has the default's own spelling. In any other spelling it stays, beside the default. */
  lemma OperatorValueKept(env: Env, v: Var)
    requires Unique(env) && v in env && IsGo(v.name) && v.value != "" && v != DefaultVar()
    ensures v in WithGoMaxProcsDefault(env) <==> !(env[FindGo(env).value].value == "" && v.name == GO_MAXPROCS_VAR)
  {
    var k :| 0 <= k < |env| && env[k] == v;
    if env[FindGo(env).value].value == "" {
      Defaulted(env, v);
    }
  }

  /** A duplicate: an empty gomaxprocs makes GOMAXPROCS=1 appear beside the operator's GoMaxProcs=8. */
  lemma OperatorValueDuplicated()
    ensures var env := [Var("gomaxprocs", ""), Var("GoMaxProcs", "8")];
            Unique(env) && WithGoMaxProcsDefault(env) == [Var("GoMaxProcs", "8"), Var("GOMAXPROCS", "1")]
  {
    var env := [Var("gomaxprocs", ""), Var("GoMaxProcs", "8")];
    assert IsGo(env[0].name) by { assert Upper("gomaxprocs") == "GOMAXPROCS"; }
    assert FindGo(env) == Some(0);
    assert env[..0] + env[1..] == [Var("GoMaxProcs", "8")];
    var tail: Env := [];
    assert Assign(tail, GO_MAXPROCS_VAR, GO_MAXPROCS_WINDOWS_DEFAULT) == [Var("GOMAXPROCS", "1")];
    assert "GoMaxProcs"[1] == 'o';
    assert [Var("GoMaxProcs", "8")][1..] == tail;
  }

  /** A value lost: an empty Gomaxprocs makes the operator's GOMAXPROCS=8 become 1. */
  lemma OperatorValueLost()
    ensures var env := [Var("Gomaxprocs", ""), Var("GOMAXPROCS", "8")];
            Unique(env) && WithGoMaxProcsDefault(env) == [Var("GOMAXPROCS", "1")]
  {
    var env := [Var("Gomaxprocs", ""), Var("GOMAXPROCS", "8")];
    assert IsGo(env[0].name) by { assert Upper("Gomaxprocs") == "GOMAXPROCS"; }
    assert FindGo(env) == Some(0);
    assert env[..0] + env[1..] == [Var("GOMAXPROCS", "8")];
  }
}
