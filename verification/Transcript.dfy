/** Following a growing transcript: the chunked line splitter and the tailing file reader. */
module Transcript {
  import opened Util
  import opened Text

  // ----- Splitting on an optional carriage return and a line feed -----

  function DropCr(line: string): string {
    if line != "" && line[|line| - 1] == '\r' then line[..|line| - 1] else line
  }

  /** One more character: a line feed ends the last line, taking one carriage return with it. */
  function PushChar(parts: seq<string>, c: char): (r: seq<string>)
    requires parts != []
    ensures r != []
  {
    var n := |parts| - 1;
    if c == '\n' then parts[..n] + [DropCr(parts[n]), ""] else parts[..n] + [parts[n] + [c]]
  }

  /** s.split(/\r?\n/) */
  function SplitLines(s: string): (parts: seq<string>)
    ensures parts != []
  {
    if s == [] then [""] else PushChar(SplitLines(s[..|s| - 1]), s[|s| - 1])
  }

  function Last(parts: seq<string>): string
    requires parts != []
  {
    parts[|parts| - 1]
  }

  function Front(parts: seq<string>): seq<string>
    requires parts != []
  {
    parts[..|parts| - 1]
  }

  lemma SplitLinesSnoc(s: string, c: char)
    ensures SplitLines(s + [c]) == PushChar(SplitLines(s), c)
  {
    assert (s + [c])[..|s|] == s;
  }

  /** The line is the part without its one trailing carriage return, if it has one. */
  predicate IsLineOf(line: string, part: string) {
    if part != "" && part[|part| - 1] == '\r' then part == line + "\r" else line == part
  }

  /** The lines are the parts between line feeds, each without its one trailing carriage return;
      what follows the last line feed stays as it is. */
  lemma {:induction false} LinesAre(s: string)
    ensures var (lines, parts) := (SplitLines(s), Split(s, '\n'));
            && |lines| == |parts| && lines[|lines| - 1] == parts[|parts| - 1]
            && forall k :: 0 <= k < |parts| - 1 ==> IsLineOf(lines[k], parts[k])
  {
    if s != [] {
      var front, c := s[..|s| - 1], s[|s| - 1];
      LinesAre(front);
      LineEnded(SplitLines(front), Split(front, '\n'), c);
    }
  }

  lemma LineEnded(lines: seq<string>, parts: seq<string>, c: char)
    requires |lines| == |parts| > 0 && lines[|lines| - 1] == parts[|parts| - 1]
    requires forall k :: 0 <= k < |parts| - 1 ==> IsLineOf(lines[k], parts[k])
    ensures var (l, p) := (PushChar(lines, c), Push(parts, c, '\n'));
            && |l| == |p| && l[|l| - 1] == p[|p| - 1]
            && forall k :: 0 <= k < |p| - 1 ==> IsLineOf(l[k], p[k])
  {
    var l, p, n := PushChar(lines, c), Push(parts, c, '\n'), |parts| - 1;
    if c == '\n' {
      var part := parts[n];
      if part != "" && part[|part| - 1] == '\r' {
        assert part == part[..|part| - 1] + "\r";
      }
    }
    forall k | 0 <= k < |p| - 1 ensures IsLineOf(l[k], p[k]) {
      if k < n {
        assert l[k] == lines[k] && p[k] == parts[k];
      }
    }
  }

  /** Trimmed, the lines are the trimmed parts between line feeds. */
  lemma TrimmedLinesAre(s: string)
    ensures var (lines, parts) := (TrimAll(Front(SplitLines(s))), Split(s, '\n'));
            |lines| == |parts| - 1 && forall k :: 0 <= k < |lines| ==> lines[k] == Trim(parts[k])
    ensures Last(SplitLines(s)) == Split(s, '\n')[|Split(s, '\n')| - 1]
  {
    LinesAre(s);
    var all, parts := SplitLines(s), Split(s, '\n');
    forall k | 0 <= k < |parts| - 1 ensures Trim(all[k]) == Trim(parts[k]) {
      TrimCr(all[k]);
    }
  }

  lemma {:induction false} LastIsOneLine(s: string)
    ensures '\n' !in Last(SplitLines(s))
  {
    if s != [] {
      LastIsOneLine(s[..|s| - 1]);
    }
  }

  lemma {:induction false} SplitOneLine(s: string)
    requires '\n' !in s
    ensures SplitLines(s) == [s]
  {
    if s != [] {
      var front, c := s[..|s| - 1], s[|s| - 1];
      assert s == front + [c];
      SplitOneLine(front);
      OneLineMore(front, c);
    }
  }

  lemma OneLineMore(front: string, c: char)
    requires c != '\n' && SplitLines(front) == [front]
    ensures SplitLines(front + [c]) == [front + [c]]
  {
    SplitLinesSnoc(front, c);
    assert [front][..0] == [];
  }

  lemma PushBehind(done: seq<string>, parts: seq<string>, c: char)
    requires parts != []
    ensures PushChar(done + parts, c) == done + PushChar(parts, c)
  {
    var all, n := done + parts, |parts| - 1;
    assert all[..|all| - 1] == done + parts[..n];
  }

  lemma ResumeStart(a: string)
    ensures SplitLines(a) == Front(SplitLines(a)) + SplitLines(Last(SplitLines(a)))
  {
    LastIsOneLine(a);
    SplitOneLine(Last(SplitLines(a)));
  }

  lemma ResumeNext(a: string, front: string, c: char, done: seq<string>, rest: string)
    requires SplitLines(a + front) == done + SplitLines(rest + front)
    ensures SplitLines(a + (front + [c])) == done + SplitLines(rest + (front + [c]))
  {
    SplitSnocBehind(a, front, c);
    SplitSnocBehind(rest, front, c);
    PushBehind(done, SplitLines(rest + front), c);
  }

  lemma SplitSnocBehind(a: string, front: string, c: char)
    ensures SplitLines(a + (front + [c])) == PushChar(SplitLines(a + front), c)
  {
    SplitLinesSnoc(a + front, c);
    assert a + (front + [c]) == (a + front) + [c];
  }

  lemma {:induction false} ResumeWith(a: string, b: string, done: seq<string>, rest: string)
    requires SplitLines(a) == done + SplitLines(rest)
    ensures SplitLines(a + b) == done + SplitLines(rest + b)
  {
    if b == [] {
      assert a + b == a && rest + b == rest;
    } else {
      var front, c := b[..|b| - 1], b[|b| - 1];
      ResumeWith(a, front, done, rest);
      ResumeNext(a, front, c, done, rest);
      assert front + [c] == b;
    }
  }

  /** Splitting may resume from the unfinished last line, wherever the text was cut. */
  lemma Resume(a: string, b: string)
    ensures SplitLines(a + b) == Front(SplitLines(a)) + SplitLines(Last(SplitLines(a)) + b)
  {
    ResumeStart(a);
    ResumeWith(a, b, Front(SplitLines(a)), Last(SplitLines(a)));
  }

  // ----- The chunked splitter -----

  function TrimAll(lines: seq<string>): seq<string> { Map(lines, (l: string) => Trim(l)) }

  function SplitTranscriptChunk(leftover: string, chunk: string): (seq<string>, string) {
    var parts := SplitLines(leftover + chunk);
    (TrimAll(Front(parts)), Last(parts))
  }

  function Flat(chunks: seq<string>): string {
    if chunks == [] then "" else Flat(chunks[..|chunks| - 1]) + chunks[|chunks| - 1]
  }

  /** Feeding chunk after chunk: all lines emitted, and the leftover. */
  function Feed(chunks: seq<string>): (seq<string>, string) {
    if chunks == [] then ([], "")
    else
      var (lines, leftover) := Feed(chunks[..|chunks| - 1]);
      var (more, rest) := SplitTranscriptChunk(leftover, chunks[|chunks| - 1]);
      (lines + more, rest)
  }

  lemma TrimAllConcat(a: seq<string>, b: seq<string>)
    ensures TrimAll(a + b) == TrimAll(a) + TrimAll(b)
  {
  }

  /** However the stream is cut, also between CR and LF, the lines emitted and the leftover are
      those of splitting the whole stream once. */
  lemma {:induction false} ChunkingIndependent(chunks: seq<string>)
    ensures Feed(chunks) == (TrimAll(Front(SplitLines(Flat(chunks)))), Last(SplitLines(Flat(chunks))))
  {
    if chunks == [] {
      assert TrimAll([]) == [];
    } else {
      var front, chunk := chunks[..|chunks| - 1], chunks[|chunks| - 1];
      ChunkingIndependent(front);
      Resume(Flat(front), chunk);
      var before := SplitLines(Flat(front));
      var after := SplitLines(Last(before) + chunk);
      assert Front(Front(before) + after) == Front(before) + Front(after);
      TrimAllConcat(Front(before), Front(after));
    }
  }

  /** A follower of a remote transcript; what it emits goes on to the formatter. */
  class Follower {
    var rtLeftover: string
    var emitted: seq<string>
    ghost var chunks: seq<string>

    ghost predicate Ok() reads this { (emitted, rtLeftover) == Feed(chunks) }

    constructor ()
      ensures Ok() && chunks == []
    {
      rtLeftover, emitted, chunks := "", [], [];
    }

    method ProcessRemoteChunk(chunk: string)
      requires Ok()
      modifies this
      ensures Ok() && chunks == old(chunks) + [chunk]
      ensures emitted == TrimAll(Front(SplitLines(Flat(chunks)))) && rtLeftover == Last(SplitLines(Flat(chunks)))
      ensures var parts := Split(Flat(chunks), '\n');
              && |emitted| == |parts| - 1 && rtLeftover == parts[|parts| - 1]
              && forall k :: 0 <= k < |emitted| ==> emitted[k] == Trim(parts[k])
    {
      var (lines, leftover) := SplitTranscriptChunk(rtLeftover, chunk);
      rtLeftover := leftover;
      ghost var before := emitted;
      for i := 0 to |lines|
        invariant emitted == before + lines[..i]
        invariant rtLeftover == leftover && chunks == old(chunks)
      {
        emitted := emitted + [lines[i]];
      }
      assert lines[..|lines|] == lines;
      chunks := chunks + [chunk];
      assert chunks[..|chunks| - 1] == old(chunks);
      ChunkingIndependent(chunks);
      TrimmedLinesAre(Flat(chunks));
    }
  }

  // ----- The tailing reader -----

  datatype Tail = Tail(offset: nat, leftover: string, backfilled: bool)

  /** What a poll finds: the file's text, None when there is no file, and whether it can be read. */
  datatype Look = Look(content: Option<string>, readable: bool, tailN: int)

  /** One poll; the answer None is the source's null. */
  function ReadNewLines(t: Tail, look: Look): (Tail, Option<seq<string>>) {
    if look.content.None? then (t, None)
    else
      var text := look.content.value;
      var u := if |text| < t.offset then t.(offset := 0, leftover := "") else t;
      if !u.backfilled && look.tailN <= 0 then (Tail(|text|, u.leftover, true), None)
      else if |text| <= u.offset || !look.readable then (u.(backfilled := true), None)
      else
        var parts := Split(u.leftover + text[u.offset..], '\n');
        (Tail(|text|, Last(parts), true), Some(Front(parts)))
  }

  class LogReader {
    var offset: nat
    var leftover: string
    var backfilled: bool

    function State(): Tail reads this { Tail(offset, leftover, backfilled) }

    constructor ()
      ensures State() == Tail(0, "", false)
    {
      offset, leftover, backfilled := 0, "", false;
    }

    method Poll(look: Look) returns (lines: Option<seq<string>>)
      modifies this
      ensures (State(), lines) == ReadNewLines(old(State()), look)
    {
      if look.content.None? {
        return None;
      }
      var size := |look.content.value|;
      if size < offset {
        offset, leftover := 0, "";
      }
      if !backfilled {
        backfilled := true;
        if look.tailN <= 0 {
          offset := size;
          return None;
        }
      }
      if size <= offset {
        return None;
      }
      if !look.readable {
        return None;
      }
      var chunk := look.content.value[offset..];
      offset := size;
      var parts := Split(leftover + chunk, '\n');
      leftover := parts[|parts| - 1];
      return Some(parts[..|parts| - 1]);
    }
  }

  // ----- Polling an append-only file -----

  /** The state after a schedule of polls, and everything they emitted. */
  function PollAll(looks: seq<Look>): (Tail, seq<string>) {
    if looks == [] then (Tail(0, "", false), [])
    else
      var (t, lines) := PollAll(looks[..|looks| - 1]);
      var look := looks[|looks| - 1];
      var (u, more) := ReadNewLines(t, look);
      (u, lines + (if more.Some? then more.value else []))
  }

  /** The text taken in so far, read or skipped; None before the file was first found. */
  function Seen(looks: seq<Look>): Option<string> {
    if looks == [] then None
    else
      var look, before := looks[|looks| - 1], Seen(looks[..|looks| - 1]);
      if look.content.None? then before
      else if look.readable || (before.None? && look.tailN <= 0) then look.content
      else if before.None? then Some("")
      else before
  }

  /** Nothing taken in is ever changed: the file only grows. */
  ghost predicate AppendOnly(looks: seq<Look>) {
    looks != [] ==>
      var front, look := looks[..|looks| - 1], looks[|looks| - 1];
      AppendOnly(front) && (look.content.Some? && Seen(front).Some? ==> Seen(front).value <= look.content.value)
  }

  /** Where reading starts: behind the text the file was first found with if that look asked for
      no backfill, at the top otherwise. */
  function Start(looks: seq<Look>): nat {
    if looks == [] then 0
    else
      var front, look := looks[..|looks| - 1], looks[|looks| - 1];
      if Seen(front).None? && look.content.Some? && look.tailN <= 0 then |look.content.value| else Start(front)
  }

  ghost predicate InStep(looks: seq<Look>, t: Tail, lines: seq<string>) {
    match Seen(looks)
    case None => t == Tail(0, "", false) && lines == [] && Start(looks) == 0
    case Some(text) =>
      && Start(looks) <= |text|
      && t == Tail(|text|, Last(Split(text[Start(looks)..], '\n')), true)
      && lines == Front(Split(text[Start(looks)..], '\n'))
  }

  lemma SplitResume(a: string, b: string)
    ensures Split(a + b, '\n') == Front(Split(a, '\n')) + Split(Last(Split(a, '\n')) + b, '\n')
  {
    var rest := Last(Split(a, '\n'));
    SplitPartsClean(a, '\n');
    SplitOne(rest, '\n');
    SplitConcat(a, b, '\n');
    SplitConcat(rest, b, '\n');
  }

  lemma SplitEmpty()
    ensures Split("", '\n') == [""]
  {
  }

  lemma {:induction false} PollInStep(looks: seq<Look>)
    requires AppendOnly(looks)
    ensures InStep(looks, PollAll(looks).0, PollAll(looks).1)
  {
    if looks != [] {
      var front, look := looks[..|looks| - 1], looks[|looks| - 1];
      PollInStep(front);
      if look.content.Some? {
        match Seen(front)
        case None => FirstLook(looks, front, look);
        case Some(text) => LaterLook(looks, front, look, text);
      }
    }
  }

  lemma FirstLook(looks: seq<Look>, front: seq<Look>, look: Look)
    requires looks != [] && front == looks[..|looks| - 1] && look == looks[|looks| - 1]
    requires look.content.Some? && Seen(front).None? && InStep(front, PollAll(front).0, PollAll(front).1)
    ensures InStep(looks, PollAll(looks).0, PollAll(looks).1)
  {
    var text := look.content.value;
    SplitEmpty();
    if look.tailN <= 0 {
      assert text[|text|..] == "";
    } else {
      assert text[0..] == text && "" + text == text;
    }
  }

  lemma LaterLook(looks: seq<Look>, front: seq<Look>, look: Look, text: string)
    requires looks != [] && front == looks[..|looks| - 1] && look == looks[|looks| - 1]
    requires look.content.Some? && Seen(front) == Some(text) && text <= look.content.value
    requires InStep(front, PollAll(front).0, PollAll(front).1)
    ensures InStep(looks, PollAll(looks).0, PollAll(looks).1)
  {
    Grown(text, look.content.value, Start(front));
  }

  /** Splitting what has grown continues the earlier split. */
  lemma Grown(text: string, now: string, start: nat)
    requires text <= now && start <= |text|
    ensures |now| == |text| ==> now == text
    ensures var before := Split(text[start..], '\n');
            var after := Split(Last(before) + now[|text|..], '\n');
            Front(Split(now[start..], '\n')) == Front(before) + Front(after)
                && Last(Split(now[start..], '\n')) == Last(after)
  {
    assert now == text + now[|text|..];
    assert now[start..] == text[start..] + now[|text|..];
    SplitResume(text[start..], now[|text|..]);
    FrontOfConcat(Front(Split(text[start..], '\n')), Split(Last(Split(text[start..], '\n')) + now[|text|..], '\n'));
  }

  lemma FrontOfConcat(a: seq<string>, b: seq<string>)
    requires b != []
    ensures Front(a + b) == a + Front(b) && Last(a + b) == Last(b)
  {
  }

  /** However the file grew between polls, what was emitted is every complete line behind the
      starting point, once and in order, and the leftover is the incomplete one. */
  lemma EveryLineOnce(looks: seq<Look>)
    requires AppendOnly(looks) && Seen(looks).Some?
    ensures var text, start := Seen(looks).value, Start(looks);
            && start <= |text|
            && PollAll(looks).1 == Front(Split(text[start..], '\n'))
            && PollAll(looks).0.leftover == Last(Split(text[start..], '\n'))
  {
    PollInStep(looks);
  }

  /**
   * Starting behind existing text, the lines emitted continue that text's complete lines
   * exactly when the text ended at a line boundary, or no line has been completed since: an
   * unfinished line present at the start loses its beginning.
   */
  lemma SkipIsExactIff(before: string, later: string)
    ensures (Front(Split(before + later, '\n')) == Front(Split(before, '\n')) + Front(Split(later, '\n')))
            <==> (Last(Split(before, '\n')) == "" || '\n' !in later)
  {
    SplitConcat(before, later, '\n');
    LineFeedSplits(later);
    MeetFront(Split(before, '\n'), Split(later, '\n'));
  }

  /** Of a log reader: what it emits continues the complete lines of the text it skipped, so that
      together they are the file's, exactly under that condition. */
  lemma PollsContinueIff(looks: seq<Look>)
    requires AppendOnly(looks) && Seen(looks).Some?
    ensures var text, start := Seen(looks).value, Start(looks);
            && start <= |text|
            && (Front(Split(text[..start], '\n')) + PollAll(looks).1 == Front(Split(text, '\n'))
                <==> Last(Split(text[..start], '\n')) == "" || '\n' !in text[start..])
  {
    EveryLineOnce(looks);
    SkippedIff(Seen(looks).value, Start(looks));
  }

  lemma SkippedIff(text: string, start: nat)
    requires start <= |text|
    ensures Front(Split(text[..start], '\n')) + Front(Split(text[start..], '\n')) == Front(Split(text, '\n'))
            <==> Last(Split(text[..start], '\n')) == "" || '\n' !in text[start..]
  {
    var before, later := text[..start], text[start..];
    assert text == before + later;
    SkipIsExactIff(before, later);
  }

  lemma MeetFront(p: seq<string>, q: seq<string>)
    requires p != [] && q != []
    ensures Front(Meet(p, q)) == Front(p) + Front(q) <==> Last(p) == "" || |q| == 1
  {
    var l, r, n := Front(Meet(p, q)), Front(p) + Front(q), |p| - 1;
    if |q| > 1 {
      assert l[n] == Last(p) + q[0] && r[n] == q[0];
      if Last(p) == "" {
        forall i | 0 <= i < |l| ensures l[i] == r[i] {
          if i < n {
          } else if i == n {
          }
        }
      } else {
        assert |l[n]| > |r[n]|;
      }
    }
  }

  lemma {:induction false} LineFeedSplits(s: string)
    ensures |Split(s, '\n')| > 1 <==> '\n' in s
  {
    if s != [] {
      LineFeedSplits(s[..|s| - 1]);
      assert s == s[..|s| - 1] + [s[|s| - 1]];
    }
  }
}
