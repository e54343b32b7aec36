/** The single-file ustar reader, and the archives it undoes. */
module Tar {
  import opened Util
  import opened Bytes

  const BLOCK := 512

  // ----- Header text -----

  /** Whether s contains a line terminator, which the pattern's dot does not cross. */
  predicate HasLineEnd(s: seq<Byte>) {
    || (exists i :: 0 <= i < |s| && (s[i] == 10 || s[i] == 13))
    || (exists i :: 0 <= i < |s| - 2 && s[i] == 0xE2 && s[i + 1] == 0x80 && (s[i + 2] == 0xA8 || s[i + 2] == 0xA9))
  }

  /** text.replace(/\0.*$/, ''): cut at the first NUL after which the text has one line. */
  function CutAtNul(s: seq<Byte>): seq<Byte> {
    CutFrom(s, 0)
  }

  function CutFrom(s: seq<Byte>, i: nat): seq<Byte>
    requires i <= |s|
    decreases |s| - i
  {
    if i == |s| then s
    else if s[i] == 0 && !HasLineEnd(s[i + 1..]) then s[..i]
    else CutFrom(s, i + 1)
  }

  predicate IsSpace(b: Byte) { b == 32 || 9 <= b <= 13 }

  function TrimLeft(s: seq<Byte>): seq<Byte> {
    if s != [] && IsSpace(s[0]) then TrimLeft(s[1..]) else s
  }

  function TrimRight(s: seq<Byte>): seq<Byte> {
    if s != [] && IsSpace(s[|s| - 1]) then TrimRight(s[..|s| - 1]) else s
  }

  predicate IsOctal(b: Byte) { 48 <= b <= 55 }

  function OctalPrefix(s: seq<Byte>): seq<Byte> {
    if s != [] && IsOctal(s[0]) then [s[0]] + OctalPrefix(s[1..]) else []
  }

  function OctalValue(s: seq<Byte>): int {
    if s == [] then 0 else 8 * OctalValue(s[..|s| - 1]) + (s[|s| - 1] as int - 48)
  }

  /** parseInt(s, 8); None is NaN. */
  function ParseOctal(s: seq<Byte>): Option<int> { ParseTrimmed(TrimLeft(s)) }

  function ParseTrimmed(t: seq<Byte>): Option<int> {
    var sign := if t != [] && t[0] == 45 then -1 else 1;
    var digits := OctalPrefix(if t != [] && (t[0] == 45 || t[0] == 43) then t[1..] else t);
    if digits == [] then None else Some(sign * OctalValue(digits))
  }

  function SizeOf(field: seq<Byte>): Option<int> {
    var text := TrimRight(TrimLeft(CutAtNul(field)));
    if text == [] then Some(0) else ParseOctal(text)
  }

  /** Math.ceil(size / 512) * 512 */
  function Padded(size: int): int {
    BLOCK * ((size + BLOCK - 1) / BLOCK)
  }

  // ----- The reader, one header at a time -----

  datatype Reading = Found(data: seq<Byte>) | NotFound | Backwards(offset: nat)

  datatype Turn = Stop(reading: Reading) | Go(offset: nat)

  predicate IsRegular(flag: Byte) { flag == 48 || flag == 0 }

  predicate AllZero(s: seq<Byte>) { forall i :: 0 <= i < |s| ==> s[i] == 0 }

  /**
   * One turn of the loop. A size that is not a number makes the next offset one as well, which
   * ends the loop. A size of -512 or less would not advance; see Backwards.
   */
  function ReadTurn(buf: seq<Byte>, name: seq<Byte>, offset: nat): Turn {
    if offset + BLOCK > |buf| then Stop(NotFound)
    else
      var header := buf[offset..offset + BLOCK];
      if AllZero(header) then Stop(NotFound)
      else
        var size := SizeOf(header[124..136]);
        var start := offset + BLOCK;
        if IsRegular(header[156]) && Basename(CutAtNul(header[0..100])) == name then
          Stop(Found(if size.Some? then Slice(buf, start, start + size.value) else []))
        else if size.None? then Stop(NotFound)
        else if Padded(size.value) < 0 then Stop(Backwards(offset))
        else Go(start + Padded(size.value))
  }

  lemma TurnAdvances(buf: seq<Byte>, name: seq<Byte>, offset: nat)
    ensures var t := ReadTurn(buf, name, offset); t.Go? ==> offset + BLOCK <= t.offset && offset + BLOCK <= |buf|
  {
  }

  function ReadFrom(buf: seq<Byte>, name: seq<Byte>, offset: nat): Reading
    decreases if offset <= |buf| then |buf| - offset + 1 else 0
  {
    TurnAdvances(buf, name, offset);
    match ReadTurn(buf, name, offset)
    case Stop(r) => r
    case Go(next) => ReadFrom(buf, name, next)
  }

  /** The body of the loop for the header at offset: what to return, or where to go on. */
  method ReadHeader(buf: seq<Byte>, name: seq<Byte>, offset: nat) returns (turn: Turn)
    requires offset + BLOCK <= |buf|
    ensures turn == ReadTurn(buf, name, offset)
  {
    var header := buf[offset..offset + BLOCK];
    if AllZero(header) {
      return Stop(NotFound);
    }
    var rawName := CutAtNul(header[0..100]);
    var size := SizeOf(header[124..136]);
    var start := offset + BLOCK;
    if IsRegular(header[156]) && Basename(rawName) == name {
      return Stop(Found(if size.Some? then Slice(buf, start, start + size.value) else []));
    }
    if size.None? {
      return Stop(NotFound);
    }
    if Padded(size.value) < 0 {
      return Stop(Backwards(offset));
    }
    return Go(start + Padded(size.value));
  }

  method ExtractSingleFile(buf: seq<Byte>, name: seq<Byte>) returns (r: Reading)
    ensures r == ReadFrom(buf, name, 0)
  {
    var offset := 0;
    while offset + BLOCK <= |buf|
      invariant ReadFrom(buf, name, offset) == ReadFrom(buf, name, 0)
      decreases |buf| - offset
    {
      TurnAdvances(buf, name, offset);
      var turn := ReadHeader(buf, name, offset);
      if turn.Stop? {
        return turn.reading;
      }
      offset := turn.offset;
    }
    return NotFound;
  }

  /** What a negative size takes: nothing while its end is in the buffer, and all but the buffer's
      tail once its end lies before the buffer. */
  lemma NegativeSize(buf: seq<Byte>, start: nat, size: int)
    requires start <= |buf| && size < 0
    ensures Slice(buf, start, start + size)
            == if start + size < 0 && start < |buf| + (start + size) then buf[start..|buf| + (start + size)] else []
  {
  }

  ghost predicate SizeForward(buf: seq<Byte>, o: nat) {
    o + BLOCK <= |buf| && SizeOf(buf[o..o + BLOCK][124..136]).Some? ==>
      SizeOf(buf[o..o + BLOCK][124..136]).value > -BLOCK
  }

  /** Without a size field of -512 or less the loop always advances, and ends with the file or
      without it. */
  lemma {:induction false} EndsForward(buf: seq<Byte>, name: seq<Byte>, offset: nat)
    requires forall o: nat :: SizeForward(buf, o)
    ensures !ReadFrom(buf, name, offset).Backwards?
    decreases if offset <= |buf| then |buf| - offset + 1 else 0
  {
    var t := ReadTurn(buf, name, offset);
    assert SizeForward(buf, offset);
    if t.Go? {
      TurnAdvances(buf, name, offset);
      EndsForward(buf, name, t.offset);
    }
  }

  /** The walk from offset comes to the header at o. */
  predicate Reaches(buf: seq<Byte>, name: seq<Byte>, offset: nat, o: nat)
    decreases if offset <= |buf| then |buf| - offset + 1 else 0
  {
    TurnAdvances(buf, name, offset);
    var turn := ReadTurn(buf, name, offset);
    offset == o || (turn.Go? && Reaches(buf, name, turn.offset, o))
  }

  /** The header at o is one to pass over, and its size is -512 or less. */
  predicate TurnsBack(buf: seq<Byte>, name: seq<Byte>, o: nat) {
    o + BLOCK <= |buf|
    && var header := buf[o..o + BLOCK];
       var size := SizeOf(header[124..136]);
       && !AllZero(header) && !(IsRegular(header[156]) && Basename(CutAtNul(header[0..100])) == name)
       && size.Some? && size.value <= -BLOCK
  }

  lemma TurnsBackIff(buf: seq<Byte>, name: seq<Byte>, o: nat)
    ensures ReadTurn(buf, name, o) == Stop(Backwards(o)) <==> TurnsBack(buf, name, o)
  {
  }

  lemma TurnBackIsOwn(buf: seq<Byte>, name: seq<Byte>, offset: nat)
    ensures var turn := ReadTurn(buf, name, offset);
            turn.Stop? && turn.reading.Backwards? ==> turn.reading.offset == offset
  {
  }

  /** Exactly when the loop would not advance: the walk comes to a header to pass over whose size
      is -512 or less. */
  lemma {:induction false} BackwardsIff(buf: seq<Byte>, name: seq<Byte>, offset: nat, o: nat)
    ensures ReadFrom(buf, name, offset) == Backwards(o) <==> Reaches(buf, name, offset, o) && TurnsBack(buf, name, o)
    decreases if offset <= |buf| then |buf| - offset + 1 else 0
  {
    TurnsBackIff(buf, name, o);
    TurnBackIsOwn(buf, name, offset);
    TurnAdvances(buf, name, offset);
    var turn := ReadTurn(buf, name, offset);
    if turn.Go? {
      BackwardsIff(buf, name, turn.offset, o);
    }
  }

  // ----- The printer -----

  /** One member: the fields the reader ignores are arbitrary bytes of the format's widths. */
  datatype Entry = Entry(name: seq<Byte>, owner: seq<Byte>, sizeEnd: Byte, times: seq<Byte>, flag: Byte,
                         rest: seq<Byte>, data: seq<Byte>, pad: seq<Byte>)

  predicate EntryOk(e: Entry) {
    && 0 < |e.name| <= 100 && 0 !in e.name
    && |e.owner| == 24 && |e.times| == 20 && |e.rest| == 355
    && e.sizeEnd in {0, 32}
    && |e.data| < 8589934592   // eleven octal digits
    && |e.data| + |e.pad| == Padded(|e.data|)
  }

  function Zeros(n: nat): (s: seq<Byte>)
    ensures |s| == n && forall i :: 0 <= i < n ==> s[i] == 0
  {
    seq(n, _ => 0)
  }

  function Octal(n: nat, width: nat): (s: seq<Byte>)
    ensures |s| == width && forall i :: 0 <= i < width ==> IsOctal(s[i])
  {
    if width == 0 then [] else Octal(n / 8, width - 1) + [48 + n % 8]
  }

  function PrintEntry(e: Entry): seq<Byte>
    requires EntryOk(e)
  {
    (e.name + Zeros(100 - |e.name|))
    + (e.owner + ((Octal(|e.data|, 11) + [e.sizeEnd]) + (e.times + ([e.flag] + (e.rest + (e.data + e.pad))))))
  }

  predicate AllOk(es: seq<Entry>) { forall i :: 0 <= i < |es| ==> EntryOk(es[i]) }

  function Print(es: seq<Entry>): seq<Byte>
    requires AllOk(es)
  {
    if es == [] then [] else PrintEntry(es[0]) + Print(es[1..])
  }

  /** What the archive holds under the wanted base name: its first regular member. */
  function Lookup(es: seq<Entry>, name: seq<Byte>): Reading {
    if es == [] then NotFound
    else if IsRegular(es[0].flag) && Basename(es[0].name) == name then Found(es[0].data)
    else Lookup(es[1..], name)
  }

  // ----- Reading back the fields -----

  lemma {:induction false} CutPadded(s: seq<Byte>, n: nat, i: nat)
    requires 0 !in s && i <= |s|
    ensures CutFrom(s + Zeros(n), i) == s
    decreases |s| - i
  {
    var t := s + Zeros(n);
    if i < |s| {
      assert t[i] == s[i] && s[i] in s;
      CutPadded(s, n, i + 1);
    } else if n > 0 {
      assert t[i] == 0;
      assert !HasLineEnd(t[i + 1..]) by {
        var tail := t[i + 1..];
        forall k | 0 <= k < |tail| ensures tail[k] == 0 { assert tail[k] == t[i + 1 + k]; }
      }
      assert t[..i] == s;
    } else {
      assert t == s;
    }
  }

  lemma {:induction false} CutNone(s: seq<Byte>, i: nat)
    requires 0 !in s && i <= |s|
    ensures CutFrom(s, i) == s
    decreases |s| - i
  {
    if i < |s| {
      assert s[i] in s;
      CutNone(s, i + 1);
    }
  }

  function Pow8(k: nat): nat { if k == 0 then 1 else 8 * Pow8(k - 1) }

  lemma {:induction false} OctalRoundTrip(n: nat, width: nat)
    requires n < Pow8(width)
    ensures OctalValue(Octal(n, width)) == n
  {
    if width > 0 {
      var s := Octal(n, width);
      OctalRoundTrip(n / 8, width - 1);
      assert s[..width - 1] == Octal(n / 8, width - 1);
    }
  }

  lemma ElevenDigits()
    ensures Pow8(11) == 8589934592
  {
    assert Pow8(2) == 64;
    assert Pow8(4) == 4096;
    assert Pow8(6) == 262144;
    assert Pow8(8) == 16777216;
    assert Pow8(10) == 1073741824;
  }

  lemma {:induction false} PrefixAll(s: seq<Byte>)
    requires forall i :: 0 <= i < |s| ==> IsOctal(s[i])
    ensures OctalPrefix(s) == s
  {
    if s != [] {
      PrefixAll(s[1..]);
    }
  }

  lemma SizeField(n: nat, end: Byte)
    requires n < 8589934592 && end in {0, 32}
    ensures SizeOf(Octal(n, 11) + [end]) == Some(n)
  {
    var digits := Octal(n, 11);
    var field := digits + [end];
    assert 0 !in digits;
    if end == 0 {
      assert field == digits + Zeros(1);
      CutPadded(digits, 1, 0);
      assert TrimRight(digits) == digits;
    } else {
      assert 0 !in field;
      CutNone(field, 0);
      assert TrimLeft(field) == field;
      assert field[..11] == digits;
      assert TrimRight(field) == TrimRight(digits) == digits;
    }
    assert TrimLeft(digits) == digits;
    PrefixAll(digits);
    ElevenDigits();
    OctalRoundTrip(n, 11);
  }

  // ----- Round trip -----

  lemma EntryFields(buf: seq<Byte>, o: nat, e: Entry)
    requires EntryOk(e) && HasAt(buf, o, PrintEntry(e))
    ensures HasAt(buf, o, e.name + Zeros(100 - |e.name|))
    ensures HasAt(buf, o + 124, Octal(|e.data|, 11) + [e.sizeEnd])
    ensures HasAt(buf, o + 156, [e.flag])
    ensures HasAt(buf, o + 512, e.data)
    ensures o + 512 + Padded(|e.data|) == o + |PrintEntry(e)| <= |buf|
  {
    var tail1 := e.data + e.pad;
    var tail2 := e.rest + tail1;
    var tail3 := [e.flag] + tail2;
    var tail4 := e.times + tail3;
    var size := Octal(|e.data|, 11) + [e.sizeEnd];
    var tail5 := size + tail4;
    HasAtSplit(buf, o, e.name + Zeros(100 - |e.name|), e.owner + tail5);
    HasAtSplit(buf, o + 100, e.owner, tail5);
    HasAtSplit(buf, o + 124, size, tail4);
    HasAtSplit(buf, o + 136, e.times, tail3);
    HasAtSplit(buf, o + 156, [e.flag], tail2);
    HasAtSplit(buf, o + 157, e.rest, tail1);
    HasAtSplit(buf, o + 512, e.data, e.pad);
  }

  lemma HeaderSlice(buf: seq<Byte>, o: nat, header: seq<Byte>, k: nat, s: seq<Byte>)
    requires o + BLOCK <= |buf| && header == buf[o..o + BLOCK] && k + |s| <= BLOCK && HasAt(buf, o + k, s)
    ensures header[k..k + |s|] == s
  {
    forall i | 0 <= i < |s| ensures header[k..k + |s|][i] == s[i] {
      assert header[k + i] == buf[o + k + i] == s[i];
    }
  }

  /** The header's fields as the reader reads them. */
  lemma HeaderFields(buf: seq<Byte>, o: nat, e: Entry, header: seq<Byte>)
    requires EntryOk(e) && HasAt(buf, o, PrintEntry(e)) && o + BLOCK <= |buf| && header == buf[o..o + BLOCK]
    ensures CutAtNul(header[0..100]) == e.name
    ensures SizeOf(header[124..136]) == Some(|e.data|)
    ensures header[156] == e.flag && !AllZero(header)
  {
    EntryFields(buf, o, e);
    var field := e.name + Zeros(100 - |e.name|);
    HeaderSlice(buf, o, header, 0, field);
    CutPadded(e.name, 100 - |e.name|, 0);
    HeaderSlice(buf, o, header, 124, Octal(|e.data|, 11) + [e.sizeEnd]);
    SizeField(|e.data|, e.sizeEnd);
    HeaderSlice(buf, o, header, 156, [e.flag]);
    assert header[156..157][0] == e.flag;
    assert header[0] == header[0..100][0] == e.name[0] && e.name[0] in e.name;
  }

  lemma TurnOnEntry(buf: seq<Byte>, o: nat, e: Entry, name: seq<Byte>)
    requires EntryOk(e) && HasAt(buf, o, PrintEntry(e))
    ensures ReadTurn(buf, name, o)
            == if IsRegular(e.flag) && Basename(e.name) == name then Stop(Found(e.data)) else Go(o + |PrintEntry(e)|)
  {
    DataAt(buf, o, e);
    HeaderFields(buf, o, e, buf[o..o + BLOCK]);
  }

  lemma DataAt(buf: seq<Byte>, o: nat, e: Entry)
    requires EntryOk(e) && HasAt(buf, o, PrintEntry(e))
    ensures Slice(buf, o + BLOCK, o + BLOCK + |e.data|) == e.data
    ensures o + BLOCK + Padded(|e.data|) == o + |PrintEntry(e)| <= |buf|
  {
    EntryFields(buf, o, e);
    SliceAt(buf, o + BLOCK, e.data);
  }

  /**
   * Reading a printed archive, from any offset of any buffer that holds it followed by an
   * end-of-archive block or by the end of the buffer, gives the bytes of its first regular
   * member with the wanted base name, whatever other members contain.
   */
  lemma {:induction false} TarRoundTrip(buf: seq<Byte>, o: nat, es: seq<Entry>, name: seq<Byte>)
    requires AllOk(es) && HasAt(buf, o, Print(es))
    requires EndsAt(buf, o + |Print(es)|)
    ensures ReadFrom(buf, name, o) == Lookup(es, name)
    decreases |es|
  {
    if es != [] {
      var next := FirstTurn(buf, o, es, name);
      if !(IsRegular(es[0].flag) && Basename(es[0].name) == name) {
        TarRoundTrip(buf, next, es[1..], name);
      }
    }
  }

  /** The reader stops at this offset. */
  predicate EndsAt(buf: seq<Byte>, o: nat) {
    o + BLOCK > |buf| || AllZero(buf[o..o + BLOCK])
  }

  lemma FirstTurn(buf: seq<Byte>, o: nat, es: seq<Entry>, name: seq<Byte>) returns (next: nat)
    requires AllOk(es) && es != [] && HasAt(buf, o, Print(es))
    ensures ReadTurn(buf, name, o)
            == if IsRegular(es[0].flag) && Basename(es[0].name) == name then Stop(Found(es[0].data)) else Go(next)
    ensures HasAt(buf, next, Print(es[1..])) && next + |Print(es[1..])| == o + |Print(es)|
  {
    next := o + |PrintEntry(es[0])|;
    HasAtSplit(buf, o, PrintEntry(es[0]), Print(es[1..]));
    TurnOnEntry(buf, o, es[0], name);
  }

  /** The usual form: the members, two zero blocks, and anything after them. */
  lemma TarArchive(es: seq<Entry>, trailer: seq<Byte>, name: seq<Byte>)
    requires AllOk(es)
    ensures ReadFrom(Print(es) + Zeros(1024) + trailer, name, 0) == Lookup(es, name)
  {
    var buf := Print(es) + Zeros(1024) + trailer;
    var end := |Print(es)|;
    assert buf[0..end] == Print(es);
    var block := buf[end..end + BLOCK];
    forall i | 0 <= i < |block| ensures block[i] == 0 {
      assert block[i] == buf[end + i] == Zeros(1024)[i];
    }
    TarRoundTrip(buf, 0, es, name);
  }

  /** Entry i is the first regular one, flag '0' or NUL, with the wanted base name. */
  ghost predicate FirstRegular(es: seq<Entry>, i: nat, name: seq<Byte>) {
    && i < |es| && (es[i].flag == 48 || es[i].flag == 0) && Basename(es[i].name) == name
    && forall j :: 0 <= j < i ==> !((es[j].flag == 48 || es[j].flag == 0) && Basename(es[j].name) == name)
  }

  lemma {:induction false} LookupFirst(es: seq<Entry>, i: nat, name: seq<Byte>)
    requires FirstRegular(es, i, name)
    ensures Lookup(es, name) == Found(es[i].data)
  {
    if i > 0 {
      assert forall j :: 0 <= j < i - 1 ==> es[1..][j] == es[j + 1];
      LookupFirst(es[1..], i - 1, name);
    }
  }

  lemma {:induction false} LookupNone(es: seq<Entry>, name: seq<Byte>)
    requires forall j :: 0 <= j < |es| ==> !((es[j].flag == 48 || es[j].flag == 0) && Basename(es[j].name) == name)
    ensures Lookup(es, name) == NotFound
  {
    if es != [] {
      assert forall j :: 0 <= j < |es| - 1 ==> es[1..][j] == es[j + 1];
      LookupNone(es[1..], name);
    }
  }

  /** So a regular file is read back as it was written, and a name no regular file has is not found. */
  lemma RegularFileReadBack(es: seq<Entry>, trailer: seq<Byte>, name: seq<Byte>, i: nat)
    requires AllOk(es)
    ensures FirstRegular(es, i, name) ==> ReadFrom(Print(es) + Zeros(1024) + trailer, name, 0) == Found(es[i].data)
    ensures (forall j :: 0 <= j < |es| ==> !((es[j].flag == 48 || es[j].flag == 0) && Basename(es[j].name) == name)) ==>
              ReadFrom(Print(es) + Zeros(1024) + trailer, name, 0) == NotFound
  {
    TarArchive(es, trailer, name);
    if FirstRegular(es, i, name) {
      LookupFirst(es, i, name);
    } else if forall j :: 0 <= j < |es| ==> !((es[j].flag == 48 || es[j].flag == 0) && Basename(es[j].name) == name) {
      LookupNone(es, name);
    }
  }

  // ----- What the header's fields are taken to say -----

  /** The data occupies the least number of whole blocks that holds it. */
  lemma PaddedIs(size: nat)
    ensures size <= Padded(size) < size + 512 && Padded(size) % 512 == 0
  {
  }

  /** A text with NULs and no line ends is cut at its first NUL. */
  lemma {:induction false} CutAtFirst(s: seq<Byte>, i: nat, k: nat)
    requires i <= k < |s| && s[k] == 0 && (forall j :: i <= j < k ==> s[j] != 0)
    requires forall j :: k < j < |s| ==> s[j] != 10 && s[j] != 13 && s[j] != 0xE2
    ensures CutFrom(s, i) == s[..k]
    decreases k - i
  {
    if i < k {
      CutAtFirst(s, i + 1, k);
    } else {
      var rest := s[k + 1..];
      assert forall j :: 0 <= j < |rest| ==> rest[j] == s[k + 1 + j];
    }
  }

  /** A line end behind every NUL keeps the text whole: the pattern does not cross lines. */
  lemma {:induction false} CutNowhere(s: seq<Byte>, i: nat)
    requires i <= |s| && s != [] && (s[|s| - 1] == 10 || s[|s| - 1] == 13)
    ensures CutFrom(s, i) == s
    decreases |s| - i
  {
    if i < |s| {
      if s[i] == 0 {
        assert s[i + 1..][|s| - 1 - (i + 1)] == s[|s| - 1];
      }
      CutNowhere(s, i + 1);
    }
  }

  predicate Digit8(b: Byte) { b == 48 || b == 49 || b == 50 || b == 51 || b == 52 || b == 53 || b == 54 || b == 55 }

  lemma {:induction false} PrefixStops(digits: seq<Byte>, rest: seq<Byte>)
    requires (forall i :: 0 <= i < |digits| ==> Digit8(digits[i])) && (rest == [] || !Digit8(rest[0]))
    ensures OctalPrefix(digits + rest) == digits
  {
    if digits != [] {
      PrefixStops(digits[1..], rest);
      assert (digits + rest)[1..] == digits[1..] + rest;
    } else {
      assert digits + rest == rest;
    }
  }

  lemma {:induction false} BlanksTrimmed(blanks: seq<Byte>, s: seq<Byte>)
    requires forall i :: 0 <= i < |blanks| ==> blanks[i] == 32 || blanks[i] == 9
    requires s != [] && !IsSpace(s[0])
    ensures TrimLeft(blanks + s) == s
  {
    if blanks == [] {
      assert blanks + s == s;
    } else {
      BlanksTrimmed(blanks[1..], s);
      assert (blanks + s)[1..] == blanks[1..] + s;
    }
  }

  /** A size is read as parseInt reads it: blanks, at most one sign, then octal digits up to the first
      byte that is none. */
  lemma ParseOctalIs(blanks: seq<Byte>, sign: seq<Byte>, digits: seq<Byte>, rest: seq<Byte>)
    requires forall i :: 0 <= i < |blanks| ==> blanks[i] == 32 || blanks[i] == 9
    requires sign == [] || sign == [43] || sign == [45]
    requires digits != [] && (forall i :: 0 <= i < |digits| ==> Digit8(digits[i])) && (rest == [] || !Digit8(rest[0]))
    ensures ParseOctal(blanks + (sign + (digits + rest)))
            == Some(if sign == [45] then -OctalValue(digits) else OctalValue(digits))
  {
    PrefixStops(digits, rest);
    SignedNumber(sign, digits + rest, digits);
    SignedStart(sign, digits + rest);
    BlanksTrimmed(blanks, sign + (digits + rest));
  }

  lemma SignedStart(sign: seq<Byte>, number: seq<Byte>)
    requires (sign == [] || sign == [43] || sign == [45]) && number != [] && Digit8(number[0])
    ensures sign + number != [] && !IsSpace((sign + number)[0])
  {
    assert (sign + number)[0] == if sign == [] then number[0] else sign[0];
  }

  lemma SignedNumber(sign: seq<Byte>, number: seq<Byte>, digits: seq<Byte>)
    requires (sign == [] || sign == [43] || sign == [45]) && number != [] && Digit8(number[0])
    requires OctalPrefix(number) == digits != []
    ensures ParseTrimmed(sign + number) == Some(if sign == [45] then -OctalValue(digits) else OctalValue(digits))
  {
    if sign == [] {
      assert sign + number == number;
    } else {
      assert (sign + number)[1..] == number && (sign + number)[0] == sign[0];
    }
  }
}
