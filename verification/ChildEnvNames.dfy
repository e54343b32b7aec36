/** Which names are PATH, which are protected and when two PATH entries are the same, letter by letter. */
module ChildEnvNames {
  import opened Util
  import opened Text
  import opened ChildEnv

  // ----- Letters -----

  /** The same character, or one letter in its two cases. */
  predicate SameLetter(c: char, d: char) {
    || c == d
    || ('a' <= c <= 'z' && d as int + 32 == c as int)
    || ('a' <= d <= 'z' && c as int + 32 == d as int)
  }

  predicate SameWord(a: string, b: string) {
    |a| == |b| && forall i :: 0 <= i < |a| ==> SameLetter(a[i], b[i])
  }

  lemma CaseIff(c: char, d: char)
    ensures LowerChar(c) == LowerChar(d) <==> SameLetter(c, d)
    ensures UpperChar(c) == UpperChar(d) <==> SameLetter(c, d)
  {
  }

  lemma LowerIff(a: string, b: string)
    ensures Lower(a) == Lower(b) <==> SameWord(a, b)
  {
    if Lower(a) == Lower(b) {
      assert |a| == |Lower(a)| == |Lower(b)| == |b|;
      forall i | 0 <= i < |a| ensures SameLetter(a[i], b[i]) {
        assert Lower(a)[i] == Lower(b)[i];
        CaseIff(a[i], b[i]);
      }
    }
    if SameWord(a, b) {
      forall i | 0 <= i < |a| ensures Lower(a)[i] == Lower(b)[i] { CaseIff(a[i], b[i]); }
    }
  }

  lemma UpperIff(a: string, b: string)
    ensures Upper(a) == Upper(b) <==> SameWord(a, b)
  {
    if Upper(a) == Upper(b) {
      assert |a| == |Upper(a)| == |Upper(b)| == |b|;
      forall i | 0 <= i < |a| ensures SameLetter(a[i], b[i]) {
        assert Upper(a)[i] == Upper(b)[i];
        CaseIff(a[i], b[i]);
      }
    }
    if SameWord(a, b) {
      forall i | 0 <= i < |a| ensures Upper(a)[i] == Upper(b)[i] { CaseIff(a[i], b[i]); }
    }
  }

  // ----- PATH entries -----

  predicate Slash(c: char) { c == '/' || c == '\\' }

  /** n is where the entry's trailing slashes begin. */
  predicate Stem(s: string, n: nat) {
    n <= |s| && (forall i :: n <= i < |s| ==> Slash(s[i])) && (n > 0 ==> !Slash(s[n - 1]))
  }

  lemma {:induction false} StripIs(s: string) returns (n: nat)
    ensures Stem(s, n) && StripSlashes(s) == s[..n]
  {
    if s != [] && Slash(s[|s| - 1]) {
      var front := s[..|s| - 1];
      n := StripIs(front);
      assert front[..n] == s[..n];
    } else {
      n := |s|;
    }
  }

  lemma StemUnique(s: string, m: nat, n: nat)
    requires Stem(s, m) && Stem(s, n)
    ensures m == n
  {
    if m < n {
    } else if n < m {
    }
  }

  /** Two entries are the same exactly if, without their trailing slashes, they agree in every
      character up to the case of letters. */
  lemma NormIff(a: string, b: string)
    ensures Norm(a) == Norm(b) <==> exists m: nat, n: nat ::
                                    Stem(a, m) && Stem(b, n) && SameWord(a[..m], b[..n])
  {
    var i := StripIs(a);
    var j := StripIs(b);
    LowerIff(a[..i], b[..j]);
    if m: nat, n: nat :| Stem(a, m) && Stem(b, n) && SameWord(a[..m], b[..n]) {
      StemUnique(a, m, i);
      StemUnique(b, n, j);
    }
  }

  // ----- Names -----

  lemma IsPathIff(name: string)
    ensures IsPath(name) <==> SameWord(name, "PATH")
  {
    assert Upper("PATH") == "PATH";
    UpperIff(name, "PATH");
  }

  /** The part stands at i in the name, letters in any case. */
  predicate MentionedAt(name: string, part: string, i: nat) {
    i + |part| <= |name| && SameWord(name[i..i + |part|], part)
  }

  ghost predicate Mentions(name: string, part: string) { exists i: nat :: MentionedAt(name, part, i) }

  predicate Begins(name: string, prefix: string) {
    |prefix| <= |name| && SameWord(name[..|prefix|], prefix)
  }

  lemma UpperSlice(s: string, i: nat, j: nat)
    requires i <= j <= |s|
    ensures Upper(s)[i..j] == Upper(s[i..j])
  {
  }

  predicate OccursAt(s: string, part: string, i: nat) {
    i + |part| <= |s| && s[i..i + |part|] == part
  }

  lemma OccursNext(s: string, part: string, i: nat)
    requires s != []
    ensures OccursAt(s[1..], part, i) <==> OccursAt(s, part, i + 1)
  {
    var t, n := s[1..], |part|;
    if i + n <= |t| {
      var a, b := s[i + 1..i + 1 + n], t[i..i + n];
      forall k | 0 <= k < n ensures a[k] == b[k] { assert a[k] == s[i + 1 + k] == t[i + k]; }
      assert a == b;
    }
  }

  lemma OccursFirst(s: string, part: string)
    ensures OccursAt(s, part, 0) <==> part <= s
  {
    if |part| <= |s| {
      assert s[0..0 + |part|] == s[..|part|];
    }
  }

  lemma {:induction false} ContainsIff(s: string, part: string)
    ensures Contains(s, part) <==> exists i: nat :: OccursAt(s, part, i)
  {
    OccursFirst(s, part);
    if s != [] {
      ContainsIff(s[1..], part);
      if i: nat :| OccursAt(s[1..], part, i) {
        OccursNext(s, part, i);
      }
      if i: nat :| OccursAt(s, part, i) {
        if i > 0 {
          OccursNext(s, part, i - 1);
        }
      }
    } else {
      if i: nat :| OccursAt(s, part, i) {
        assert i == 0;
      }
    }
  }

  lemma MentionedIff(name: string, part: string, i: nat)
    requires Upper(part) == part
    ensures OccursAt(Upper(name), part, i) <==> MentionedAt(name, part, i)
  {
    if i + |part| <= |name| {
      UpperSlice(name, i, i + |part|);
      UpperIff(name[i..i + |part|], part);
    }
  }

  lemma MentionsIff(name: string, part: string)
    requires Upper(part) == part
    ensures Contains(Upper(name), part) <==> Mentions(name, part)
  {
    ContainsIff(Upper(name), part);
    if i: nat :| OccursAt(Upper(name), part, i) {
      MentionedIff(name, part, i);
    }
    if i: nat :| MentionedAt(name, part, i) {
      MentionedIff(name, part, i);
    }
  }

  lemma BeginsIff(name: string, prefix: string)
    requires Upper(prefix) == prefix
    ensures prefix <= Upper(name) <==> Begins(name, prefix)
  {
    if |prefix| <= |name| {
      UpperSlice(name, 0, |prefix|);
      UpperIff(name[..|prefix|], prefix);
      assert name[0..|prefix|] == name[..|prefix|] && Upper(name)[0..|prefix|] == Upper(name)[..|prefix|];
    }
  }

  // ----- The protected names -----

  /** Variables of the system and the user's session, of programs and their places, and of the terminal
      and the network. */
  const USER: set<string> := {"PATH", "PATHEXT", "HOME", "USERPROFILE", "HOMEDRIVE",
                              "HOMEPATH", "USERNAME", "USERDOMAIN", "COMPUTERNAME"}
  const SYSTEM: set<string> := {"APPDATA", "LOCALAPPDATA", "PROGRAMDATA", "PUBLIC",
                                "ALLUSERSPROFILE", "SYSTEMROOT", "SYSTEMDRIVE", "WINDIR",
                                "COMSPEC"}
  const PLACES: set<string> := {"PROGRAMFILES", "PROGRAMFILES(X86)", "PROGRAMW6432",
                                "COMMONPROGRAMFILES", "COMMONPROGRAMFILES(X86)", "COMMONPROGRAMW6432"}
  const PROGRAMS: set<string> := {"TEMP", "TMP", "TMPDIR", "PSMODULEPATH",
                                  "NUMBER_OF_PROCESSORS", "PROCESSOR_ARCHITECTURE"}
  const SESSION: set<string> := {"OS", "MSYSTEM", "SHELL", "TERM", "LANG", "LC_ALL",
                                 "TZ", "HTTP_PROXY", "HTTPS_PROXY", "NO_PROXY", "ALL_PROXY"}

  /** The tools' own prefixes. */
  const PREFIXES: set<string> := {"GIT_", "GCM_", "GH_", "GITHUB_", "SSH_", "BEADS_", "BD_",
                                  "DOLT_", "APRA_", "FLEET_", "ANTHROPIC_", "CLAUDE_", "OPENAI_", "CODEX_",
                                  "GEMINI_", "GOOGLE_", "COPILOT_", "AWS_", "AZURE_", "NODE_", "NPM_"}

  /** What marks a credential. */
  const MARKS: set<string> := {"TOKEN", "SECRET", "PASSWORD", "PASSWD", "CREDENTIAL", "APIKEY", "API_KEY", "AUTH"}

  lemma UserCapitals(w: string)
    requires w in USER
    ensures Upper(w) == w
  {
  }

  lemma SystemCapitals(w: string)
    requires w in SYSTEM
    ensures Upper(w) == w
  {
  }

  lemma PlaceCapitals(w: string)
    requires w in PLACES
    ensures Upper(w) == w
  {
  }

  lemma ProgramCapitals(w: string)
    requires w in PROGRAMS
    ensures Upper(w) == w
  {
  }

  lemma SessionCapitals(w: string)
    requires w in SESSION
    ensures Upper(w) == w
  {
  }

  lemma PrefixCapitals(w: string)
    requires w in PREFIXES
    ensures Upper(w) == w
  {
  }

  lemma MarkCapitals(w: string)
    requires w in MARKS
    ensures Upper(w) == w
  {
  }

  const NAMES: set<string> := USER + SYSTEM + PLACES + PROGRAMS + SESSION

  lemma NamesAre()
    ensures PROTECTED_NAMES == NAMES
  {
  }

  lemma PrefixesAre(p: string)
    ensures p in PREFIXES <==> p in PROTECTED_PREFIXES
  {
  }

  lemma MarksAre(m: string)
    ensures m in MARKS <==> m in CREDENTIAL_PARTS
  {
  }

  lemma NameCapitals(w: string)
    requires w in NAMES
    ensures Upper(w) == w
  {
    if w in USER {
      UserCapitals(w);
    } else if w in SYSTEM {
      SystemCapitals(w);
    } else if w in PLACES {
      PlaceCapitals(w);
    } else if w in PROGRAMS {
      ProgramCapitals(w);
    } else {
      SessionCapitals(w);
    }
  }

  ghost predicate Needed(name: string) {
    || (exists w <- NAMES :: SameWord(name, w))
    || (exists p <- PREFIXES :: Begins(name, p))
    || (exists m <- MARKS :: Mentions(name, m))
  }

  lemma NamedIff(name: string)
    ensures Upper(name) in PROTECTED_NAMES <==> exists w <- NAMES :: SameWord(name, w)
  {
    NamesAre();
    forall w | w in NAMES ensures Upper(name) == w <==> SameWord(name, w) {
      NameCapitals(w);
      UpperIff(name, w);
    }
  }

  lemma PrefixedIff(name: string)
    ensures (exists i :: 0 <= i < |PROTECTED_PREFIXES| && PROTECTED_PREFIXES[i] <= Upper(name))
            <==> exists p <- PREFIXES :: Begins(name, p)
  {
    forall p | p in PREFIXES ensures p <= Upper(name) <==> Begins(name, p) {
      PrefixCapitals(p);
      BeginsIff(name, p);
    }
    if i :| 0 <= i < |PROTECTED_PREFIXES| && PROTECTED_PREFIXES[i] <= Upper(name) {
      PrefixesAre(PROTECTED_PREFIXES[i]);
    }
    if p :| p in PREFIXES && Begins(name, p) {
      PrefixesAre(p);
      var i :| 0 <= i < |PROTECTED_PREFIXES| && PROTECTED_PREFIXES[i] == p;
    }
  }

  lemma MarkedIff(name: string)
    ensures (exists i :: 0 <= i < |CREDENTIAL_PARTS| && Contains(Upper(name), CREDENTIAL_PARTS[i]))
            <==> exists m <- MARKS :: Mentions(name, m)
  {
    forall m | m in MARKS ensures Contains(Upper(name), m) <==> Mentions(name, m) {
      MarkCapitals(m);
      MentionsIff(name, m);
    }
    if i :| 0 <= i < |CREDENTIAL_PARTS| && Contains(Upper(name), CREDENTIAL_PARTS[i]) {
      MarksAre(CREDENTIAL_PARTS[i]);
    }
    if m :| m in MARKS && Mentions(name, m) {
      MarksAre(m);
      var i :| 0 <= i < |CREDENTIAL_PARTS| && CREDENTIAL_PARTS[i] == m;
    }
  }

  /** Protected, letters in any case, are exactly the listed names, what begins with one of the
      tools' prefixes, and what mentions a credential. */
  lemma ProtectedIff(name: string)
    ensures IsProtected(name) <==> Needed(name)
  {
    NamedIff(name);
    PrefixedIff(name);
    MarkedIff(name);
  }

  /** So none of these is ever dropped, and anything else goes before the block exceeds the cap. */
  lemma DroppedIffNotNeeded(env: Env, sep: char, cap: int, v: Var)
    ensures var b := Bound(env, sep, cap);
            && (v in b.dropped ==> !Needed(v.name))
            && (v in b.env && b.size > cap ==> Needed(v.name))
  {
    KeptOrDropped(env, sep, cap, v);
    BoundFits(env, sep, cap, v);
    ProtectedIff(v.name);
  }
}
