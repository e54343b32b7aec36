/** Strings as the JavaScript code uses them: split, join, trim and UTF-16 length. */
module Text {
  import opened Util

  /** One more character: it starts a new part or extends the last. */
  function Push(parts: seq<string>, c: char, sep: char): (r: seq<string>)
    requires parts != []
    ensures r != []
  {
    if c == sep then parts + [""] else parts[..|parts| - 1] + [parts[|parts| - 1] + [c]]
  }

  /** value.split(sep) for a one-character separator. */
  function Split(s: string, sep: char): (parts: seq<string>)
    ensures parts != []
  {
    if s == [] then [""] else Push(Split(s[..|s| - 1], sep), s[|s| - 1], sep)
  }

  /** parts.join(sep) */
  function Join(parts: seq<string>, sep: char): string {
    if parts == [] then ""
    else if |parts| == 1 then parts[0]
    else Join(parts[..|parts| - 1], sep) + [sep] + parts[|parts| - 1]
  }

  lemma SplitSnoc(s: string, c: char, sep: char)
    ensures Split(s + [c], sep) == Push(Split(s, sep), c, sep)
  {
    assert (s + [c])[..|s|] == s;
  }

  /** Two split texts put together meet inside one part. */
  function Meet(p: seq<string>, q: seq<string>): (r: seq<string>)
    requires p != [] && q != []
    ensures |r| == |p| + |q| - 1
  {
    p[..|p| - 1] + [p[|p| - 1] + q[0]] + q[1..]
  }

  lemma PushTail(pre: seq<string>, tail: seq<string>, c: char, sep: char)
    requires tail != []
    ensures Push(pre + tail, c, sep) == pre + Push(tail, c, sep)
  {
    var all := pre + tail;
    assert all[..|all| - 1] == pre + tail[..|tail| - 1] && all[|all| - 1] == tail[|tail| - 1];
  }

  /** Where they meet, taken apart. */
  lemma MeetCons(p: seq<string>, x: string, tail: seq<string>)
    requires p != []
    ensures Meet(p, [x] + tail) == (p[..|p| - 1] + [p[|p| - 1] + x]) + tail
  {
    assert ([x] + tail)[1..] == tail;
  }

  lemma PushMeet(p: seq<string>, q: seq<string>, c: char, sep: char)
    requires p != [] && q != []
    ensures Push(Meet(p, q), c, sep) == Meet(p, Push(q, c, sep))
  {
    var x, tail, n := q[0], q[1..], |p| - 1;
    assert q == [x] + tail;
    MeetCons(p, x, tail);
    if tail != [] {
      PushTail(p[..n] + [p[n] + x], tail, c, sep);
      PushTail([x], tail, c, sep);
      MeetCons(p, x, Push(tail, c, sep));
    } else {
      PushMeetOne(p, x, c, sep);
      assert q == [x];
    }
  }

  lemma PushMeetOne(p: seq<string>, x: string, c: char, sep: char)
    requires p != []
    ensures Push(Meet(p, [x]), c, sep) == Meet(p, Push([x], c, sep))
  {
    var n := |p| - 1;
    MeetCons(p, x, []);
    assert [x] + [] == [x] && (p[..n] + [p[n] + x]) + [] == p[..n] + [p[n] + x];
    if c == sep {
      MeetCons(p, x, [""]);
      assert Push([x], c, sep) == [x] + [""];
    } else {
      MeetCons(p, x + [c], []);
      assert (p[n] + x) + [c] == p[n] + (x + [c]);
      assert Push([x], c, sep) == [x + [c]] + [];
    }
  }

  lemma MeetEmpty(p: seq<string>)
    requires p != []
    ensures Meet(p, [""]) == p
  {
    assert p[|p| - 1] + "" == p[|p| - 1];
  }

  lemma {:induction false} SplitConcat(a: string, b: string, sep: char)
    ensures Split(a + b, sep) == Meet(Split(a, sep), Split(b, sep))
  {
    if b == [] {
      assert a + b == a;
      MeetEmpty(Split(a, sep));
    } else {
      var c, d := b[..|b| - 1], b[|b| - 1];
      SplitConcat(a, c, sep);
      SplitSnoc(a + c, d, sep);
      assert a + b == (a + c) + [d];
      PushMeet(Split(a, sep), Split(c, sep), d, sep);
    }
  }

  lemma {:induction false} SplitOne(s: string, sep: char)
    requires sep !in s
    ensures Split(s, sep) == [s]
  {
    if s != [] {
      assert s[|s| - 1] in s;
      SplitOne(s[..|s| - 1], sep);
      assert s[..|s| - 1] + [s[|s| - 1]] == s;
    }
  }

  lemma {:induction false} SplitPartsClean(s: string, sep: char)
    ensures forall i :: 0 <= i < |Split(s, sep)| ==> sep !in Split(s, sep)[i]
  {
    if s != [] {
      SplitPartsClean(s[..|s| - 1], sep);
    }
  }

  lemma {:induction false} SplitOfJoin(parts: seq<string>, sep: char)
    requires parts != [] && forall i :: 0 <= i < |parts| ==> sep !in parts[i]
    ensures Split(Join(parts, sep), sep) == parts
  {
    var n := |parts| - 1;
    SplitOne(parts[n], sep);
    if n > 0 {
      var front := parts[..n];
      SplitOfJoin(front, sep);
      SplitSnoc(Join(front, sep), sep, sep);
      SplitConcat(Join(front, sep) + [sep], parts[n], sep);
      assert (front + [""])[..n] == front;
      assert "" + parts[n] == parts[n];
    }
  }

  lemma {:induction false} JoinOfSplit(s: string, sep: char)
    ensures Join(Split(s, sep), sep) == s
  {
    if s != [] {
      var front, c := s[..|s| - 1], s[|s| - 1];
      var parts := Split(front, sep);
      JoinOfSplit(front, sep);
      assert s == front + [c];
      if c == sep {
        assert (parts + [""])[..|parts|] == parts;
      } else {
        var n := |parts| - 1;
        assert Split(s, sep)[..n] == parts[..n];
        if n > 0 {
          assert Join(parts, sep) + [c] == Join(parts[..n], sep) + [sep] + (parts[n] + [c]);
        }
      }
    }
  }

  // ----- trim -----

  /** The white space and line terminators trim removes. */
  predicate IsSpace(c: char) {
    var u := c as int;
    || 9 <= u <= 13 || u == 0x20 || u == 0xA0 || u == 0x1680 || 0x2000 <= u <= 0x200A
    || u == 0x2028 || u == 0x2029 || u == 0x202F || u == 0x205F || u == 0x3000 || u == 0xFEFF
  }

  function TrimLeft(s: string): string {
    if s != [] && IsSpace(s[0]) then TrimLeft(s[1..]) else s
  }

  function TrimRight(s: string): string {
    if s != [] && IsSpace(s[|s| - 1]) then TrimRight(s[..|s| - 1]) else s
  }

  function Trim(s: string): string { TrimRight(TrimLeft(s)) }

  predicate Trimmed(s: string) { s != [] ==> !IsSpace(s[0]) && !IsSpace(s[|s| - 1]) }

  lemma {:induction false} TrimLeftIs(s: string) returns (k: nat)
    ensures k <= |s| && TrimLeft(s) == s[k..] && (k < |s| ==> !IsSpace(s[k]))
    ensures forall i :: 0 <= i < k ==> IsSpace(s[i])
  {
    if s != [] && IsSpace(s[0]) {
      var t := s[1..];
      k := TrimLeftIs(t);
      assert t[k..] == s[k + 1..];
      assert forall i :: 1 <= i < k + 1 ==> s[i] == t[i - 1];
      k := k + 1;
    } else {
      k := 0;
    }
  }

  lemma {:induction false} TrimRightIs(s: string) returns (k: nat)
    ensures k <= |s| && TrimRight(s) == s[..k] && (k > 0 ==> !IsSpace(s[k - 1]))
    ensures forall i :: k <= i < |s| ==> IsSpace(s[i])
  {
    if s != [] && IsSpace(s[|s| - 1]) {
      var t := s[..|s| - 1];
      k := TrimRightIs(t);
      assert t[..k] == s[..k];
    } else {
      k := |s|;
    }
  }

  /** trim cuts out a stretch of the text without white space at either end, and nothing but white
      space lies outside it. */
  lemma TrimIs(s: string) returns (i: nat, j: nat)
    ensures i <= j <= |s| && Trim(s) == s[i..j] && Trimmed(Trim(s))
    ensures forall k :: 0 <= k < i || j <= k < |s| ==> IsSpace(s[k])
  {
    i := TrimLeftIs(s);
    var l := TrimLeft(s);
    var k := TrimRightIs(l);
    j := i + k;
    Nested(s, l, i, k);
    forall m | j <= m < |s| ensures IsSpace(s[m]) { assert s[m] == l[m - i]; }
  }

  lemma {:induction false} TrimLeftPadded(a: string, s: string)
    requires forall i :: 0 <= i < |a| ==> IsSpace(a[i])
    ensures TrimLeft(a + s) == TrimLeft(s)
  {
    if a == [] {
      assert a + s == s;
    } else {
      TrimLeftPadded(a[1..], s);
      assert (a + s)[1..] == a[1..] + s;
    }
  }

  lemma {:induction false} TrimRightPadded(s: string, b: string)
    requires forall i :: 0 <= i < |b| ==> IsSpace(b[i])
    ensures TrimRight(s + b) == TrimRight(s)
  {
    if b == [] {
      assert s + b == s;
    } else {
      TrimRightPadded(s, b[..|b| - 1]);
      assert (s + b)[..|s + b| - 1] == s + b[..|b| - 1];
    }
  }

  /** Blanks, tabs and line ends around printing characters are what trim takes away. */
  lemma TrimPadded(a: string, s: string, b: string)
    requires forall i :: 0 <= i < |a| ==> a[i] in {' ', '\t', '\r', '\n'}
    requires forall i :: 0 <= i < |b| ==> b[i] in {' ', '\t', '\r', '\n'}
    requires s != [] && '!' <= s[0] <= '~' && '!' <= s[|s| - 1] <= '~'
    ensures Trim(a + (s + b)) == s
  {
    TrimLeftPadded(a, s + b);
    assert (s + b)[0] == s[0];
    TrimRightPadded(s, b);
  }

  /** A carriage return at the end makes no difference. */
  lemma TrimCr(s: string)
    ensures Trim(s + "\r") == Trim(s)
  {
    TrimLeftSnoc(s, '\r');
    TrimRightPadded(TrimLeft(s), "\r");
  }

  lemma {:induction false} TrimLeftSnoc(s: string, c: char)
    requires IsSpace(c)
    ensures TrimLeft(s + [c]) == if TrimLeft(s) == "" then "" else TrimLeft(s) + [c]
  {
    if s == [] {
      assert s + [c] == [c] && [c][1..] == "";
    } else if IsSpace(s[0]) {
      TrimLeftSnoc(s[1..], c);
      assert (s + [c])[1..] == s[1..] + [c];
    }
  }

  // ----- Length in UTF-16 code units -----

  function Units(s: string): nat {
    if s == [] then 0 else Units(s[..|s| - 1]) + (if s[|s| - 1] as int < 0x10000 then 1 else 2)
  }

  /** One unit a character, and one more for those beyond the basic plane. */
  lemma {:induction false} UnitsAre(s: string)
    ensures Units(s) == |s| + |Filter(s, (c: char) => c as int >= 65536)|
  {
    if s != [] {
      UnitsAre(s[..|s| - 1]);
    }
  }

  lemma Nested(s: string, l: string, i: nat, k: nat)
    requires i <= |s| && l == s[i..] && k <= |l|
    ensures l[..k] == s[i..i + k]
  {
  }

  lemma TrimTrimmed(s: string)
    requires Trimmed(s)
    ensures Trim(s) == s
  {
  }

  lemma {:induction false} UnitsConcat(a: string, b: string)
    ensures Units(a + b) == Units(a) + Units(b)
  {
    if b == [] {
      assert a + b == a;
    } else {
      UnitsConcat(a, b[..|b| - 1]);
      assert (a + b)[..|a + b| - 1] == a + b[..|b| - 1];
    }
  }

  lemma UnitsSlice(s: string, i: nat, j: nat)
    requires i <= j <= |s|
    ensures Units(s[i..j]) <= Units(s)
  {
    var a, m, z := s[..i], s[i..j], s[j..];
    Pieces(s, i, j);
    UnitsConcat(a, m + z);
    UnitsConcat(m, z);
  }

  lemma Pieces(s: string, i: nat, j: nat)
    requires i <= j <= |s|
    ensures s[..i] + (s[i..j] + s[j..]) == s
  {
  }

  lemma UnitsJoin(front: seq<string>, last: string, sep: char)
    requires sep as int < 0x10000
    ensures Units(Join(front + [last], sep))
            == if front == [] then Units(last) else Units(Join(front, sep)) + 1 + Units(last)
  {
    var all := front + [last];
    if front != [] {
      assert all[..|front|] == front;
      assert Units([sep]) == 1;
      UnitsConcat(Join(front, sep) + [sep], last);
      UnitsConcat(Join(front, sep), [sep]);
    }
  }
}
