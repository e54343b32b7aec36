/** The single-file ZIP reader, and the archives it undoes. */
module Zip {
  import opened Util
  import opened Bytes

  const END_SIG: nat := 0x06054b50
  const CENTRAL_SIG: nat := 0x02014b50
  const LOCAL_SIG: nat := 0x04034b50
  const END_SIZE := 22

  datatype Error = NoEndRecord | BadCentral | BadLocal | Unsupported(method': nat) | PastEnd | NotFound | InflateFailed

  datatype Reading = Extracted(data: seq<Byte>) | Failed(error: Error)

  // ----- The end record -----

  /** The last offset at or below i that reads as the end record's signature, or -1. */
  function EndFrom(buf: seq<Byte>, i: int): (r: int)
    requires i + 4 <= |buf| || i < 0
    ensures -1 <= r && (r >= 0 ==> r <= i && U32(buf, r) == Some(END_SIG))
    ensures forall j: nat :: r < j <= i ==> U32(buf, j) != Some(END_SIG)
    decreases if i < 0 then 0 else i + 1
  {
    if i < 0 then -1
    else if U32(buf, i) == Some(END_SIG) then i
    else EndFrom(buf, i - 1)
  }

  // ----- The central directory -----

  datatype Central = Central(method': nat, size: nat, nameLen: nat, extraLen: nat, commentLen: nat, local: nat)

  datatype Parsed = Entry(central: Central, fileName: seq<Byte>) | Bad(error: Error)

  function ParseCentral(buf: seq<Byte>, o: nat): Parsed {
    var sig := U32(buf, o);
    if sig.None? then Bad(PastEnd)
    else if sig.value != CENTRAL_SIG then Bad(BadCentral)
    else
      var (m, size, n, e, c, local) :=
        (U16(buf, o + 10), U32(buf, o + 20), U16(buf, o + 28), U16(buf, o + 30), U16(buf, o + 32), U32(buf, o + 42));
      if m.None? || size.None? || n.None? || e.None? || c.None? || local.None? then Bad(PastEnd)
      else Entry(Central(m.value, size.value, n.value, e.value, c.value, local.value),
                 Slice(buf, o + 46, o + 46 + n.value))
  }

  type Inflate = seq<Byte> -> Option<seq<Byte>>

  function Unpack(method': nat, data: seq<Byte>, inflate: Inflate): Reading {
    if method' == 0 then Extracted(data)
    else if method' == 8 then
      match inflate(data) case Some(d) => Extracted(d) case None => Failed(InflateFailed)
    else Failed(Unsupported(method'))
  }

  function ReadLocal(buf: seq<Byte>, c: Central, inflate: Inflate): Reading {
    var sig := U32(buf, c.local);
    if sig.None? then Failed(PastEnd)
    else if sig.value != LOCAL_SIG then Failed(BadLocal)
    else
      var (n, e) := (U16(buf, c.local + 26), U16(buf, c.local + 28));
      if n.None? || e.None? then Failed(PastEnd)
      else
        var start := c.local + 30 + n.value + e.value;
        Unpack(c.method', Slice(buf, start, start + c.size), inflate)
  }

  datatype Turn = Stop(reading: Reading) | Go(offset: nat)

  /** One directory entry: read if its base name is wanted, passed otherwise. */
  function Decide(parsed: Parsed, name: seq<Byte>, o: nat, read: Central -> Reading): Turn {
    match parsed
    case Bad(error) => Stop(Failed(error))
    case Entry(c, fileName) =>
      if Basename(fileName) == name then Stop(read(c)) else Go(o + 46 + c.nameLen + c.extraLen + c.commentLen)
  }

  function EntryTurn(buf: seq<Byte>, name: seq<Byte>, inflate: Inflate): nat -> Turn {
    (o: nat) => Decide(ParseCentral(buf, o), name, o, (c: Central) => ReadLocal(buf, c, inflate))
  }

  /** The loop over the directory, at most left entries from offset o on. */
  function Walk(turn: nat -> Turn, o: nat, left: nat): Reading
    decreases left
  {
    if left == 0 then Failed(NotFound)
    else
      match turn(o)
      case Stop(reading) => reading
      case Go(next) => Walk(turn, next, left - 1)
  }

  datatype EndRecord = EndRecord(count: nat, cd: nat) | NoEnd(error: Error)

  function ParseEnd(buf: seq<Byte>): EndRecord {
    var end := EndFrom(buf, |buf| - END_SIZE);
    if end == -1 then NoEnd(NoEndRecord)
    else
      var (count, cd) := (U16(buf, end + 10), U32(buf, end + 16));
      if count.None? || cd.None? then NoEnd(PastEnd) else EndRecord(count.value, cd.value)
  }

  function WalkFrom(end: EndRecord, turn: nat -> Turn): Reading {
    match end
    case NoEnd(error) => Failed(error)
    case EndRecord(count, cd) => Walk(turn, cd, count)
  }

  function Read(buf: seq<Byte>, name: seq<Byte>, inflate: Inflate): Reading {
    WalkFrom(ParseEnd(buf), EntryTurn(buf, name, inflate))
  }

  method FindEnd(buf: seq<Byte>) returns (end: int)
    ensures end == EndFrom(buf, |buf| - END_SIZE)
  {
    var i := |buf| - END_SIZE;
    while i >= 0
      invariant i <= |buf| - END_SIZE
      invariant EndFrom(buf, i) == EndFrom(buf, |buf| - END_SIZE)
    {
      if U32(buf, i) == Some(END_SIG) {
        return i;
      }
      i := i - 1;
    }
    return -1;
  }

  method WalkDirectory(turn: nat -> Turn, cd: nat, count: nat) returns (r: Reading)
    ensures r == Walk(turn, cd, count)
  {
    var offset: nat := cd;
    for k := 0 to count
      invariant Walk(turn, offset, count - k) == Walk(turn, cd, count)
    {
      var entry := turn(offset);
      if entry.Stop? {
        return entry.reading;
      }
      offset := entry.offset;
    }
    return Failed(NotFound);
  }

  method ReadEnd(buf: seq<Byte>) returns (end: EndRecord)
    ensures end == ParseEnd(buf)
  {
    var o := FindEnd(buf);
    if o == -1 {
      return NoEnd(NoEndRecord);
    }
    var count, cd := U16(buf, o + 10), U32(buf, o + 16);
    if count.None? || cd.None? {
      return NoEnd(PastEnd);
    }
    return EndRecord(count.value, cd.value);
  }

  method ExtractSingleFile(buf: seq<Byte>, name: seq<Byte>, inflate: Inflate) returns (r: Reading)
    ensures r == Read(buf, name, inflate)
  {
    var end := ReadEnd(buf);
    if end.NoEnd? {
      return Failed(end.error);
    }
    r := WalkDirectory(EntryTurn(buf, name, inflate), end.cd, end.count);
  }

  // ----- The printer -----

  /** One member; the fields the reader ignores are arbitrary bytes of the format's widths. */
  datatype Member = Member(name: seq<Byte>, method': nat, data: seq<Byte>,
                           version: seq<Byte>, stamp: seq<Byte>, fullSize: seq<Byte>, attributes: seq<Byte>,
                           extra: seq<Byte>, comment: seq<Byte>,
                           localVersion: seq<Byte>, localStamp: seq<Byte>, localExtra: seq<Byte>)

  predicate MemberOk(m: Member) {
    && |m.name| < 65536 && m.method' < 65536 && |m.data| < 4294967296
    && |m.version| == 6 && |m.stamp| == 8 && |m.fullSize| == 4 && |m.attributes| == 8
    && |m.extra| < 65536 && |m.comment| < 65536
    && |m.localVersion| == 4 && |m.localStamp| == 16 && |m.localExtra| < 65536
  }

  function PrintLocal(m: Member): seq<Byte> {
    LE32(LOCAL_SIG) + (m.localVersion + (LE16(m.method') + (m.localStamp
    + (LE16(|m.name|) + (LE16(|m.localExtra|) + (m.name + (m.localExtra + m.data)))))))
  }

  function PrintCentral(m: Member, local: nat): seq<Byte> {
    LE32(CENTRAL_SIG) + (m.version + (LE16(m.method') + (m.stamp + (LE32(|m.data|) + (m.fullSize
    + (LE16(|m.name|) + (LE16(|m.extra|) + (LE16(|m.comment|) + (m.attributes + (LE32(local)
    + (m.name + (m.extra + m.comment))))))))))))
  }

  predicate AllOk(ms: seq<Member>) { forall i :: 0 <= i < |ms| ==> MemberOk(ms[i]) }

  function LocalBlocks(ms: seq<Member>): seq<seq<Byte>> {
    seq(|ms|, i requires 0 <= i < |ms| => PrintLocal(ms[i]))
  }

  /** The directory of members whose local parts start at offset stub. */
  function CentralBlocks(ms: seq<Member>, stub: nat): seq<seq<Byte>> {
    seq(|ms|, i requires 0 <= i < |ms| => PrintCentral(ms[i], BlockOffset(LocalBlocks(ms), stub, i)))
  }

  function PrintLocals(ms: seq<Member>): seq<Byte> { Flatten(LocalBlocks(ms)) }

  function PrintCentrals(ms: seq<Member>, stub: nat): seq<Byte> { Flatten(CentralBlocks(ms, stub)) }

  /** disks, directorySize and tail (comment length and comment) are what the reader ignores. */
  function PrintEnd(count: nat, cd: nat, disks: seq<Byte>, directorySize: seq<Byte>, tail: seq<Byte>): seq<Byte> {
    LE32(END_SIG) + (disks + (LE16(count) + (directorySize + (LE32(cd) + tail))))
  }

  /** The first member with the wanted base name, unpacked by its method. */
  function Lookup(ms: seq<Member>, name: seq<Byte>, inflate: Inflate): Reading {
    if ms == [] then Failed(NotFound)
    else if Basename(ms[0].name) == name then Unpack(ms[0].method', ms[0].data, inflate)
    else Lookup(ms[1..], name, inflate)
  }

  // ----- Reading back the parts -----

  lemma LocalParts(buf: seq<Byte>, o: nat, m: Member)
    requires MemberOk(m) && HasAt(buf, o, PrintLocal(m))
    ensures HasAt(buf, o, LE32(LOCAL_SIG)) && HasAt(buf, o + 26, LE16(|m.name|))
            && HasAt(buf, o + 28, LE16(|m.localExtra|))
    ensures HasAt(buf, o + 30 + |m.name| + |m.localExtra|, m.data)
  {
    var t1 := m.name + (m.localExtra + m.data);
    var t2 := LE16(|m.localExtra|) + t1;
    var t3 := LE16(|m.name|) + t2;
    var t4 := m.localStamp + t3;
    var t5 := LE16(m.method') + t4;
    HasAtSplit(buf, o, LE32(LOCAL_SIG), m.localVersion + t5);
    HasAtSplit(buf, o + 4, m.localVersion, t5);
    HasAtSplit(buf, o + 8, LE16(m.method'), t4);
    HasAtSplit(buf, o + 10, m.localStamp, t3);
    HasAtSplit(buf, o + 26, LE16(|m.name|), t2);
    HasAtSplit(buf, o + 28, LE16(|m.localExtra|), t1);
    HasAtSplit(buf, o + 30, m.name, m.localExtra + m.data);
    HasAtSplit(buf, o + 30 + |m.name|, m.localExtra, m.data);
  }

  lemma LocalNumbers(buf: seq<Byte>, o: nat, m: Member)
    requires MemberOk(m) && HasAt(buf, o, PrintLocal(m))
    ensures U32(buf, o) == Some(LOCAL_SIG) && U16(buf, o + 26) == Some(|m.name|)
            && U16(buf, o + 28) == Some(|m.localExtra|)
    ensures var start := o + 30 + |m.name| + |m.localExtra|; Slice(buf, start, start + |m.data|) == m.data
  {
    LocalParts(buf, o, m);
    ReadLE32(buf, o, LOCAL_SIG);
    ReadLE16(buf, o + 26, |m.name|);
    ReadLE16(buf, o + 28, |m.localExtra|);
    SliceAt(buf, o + 30 + |m.name| + |m.localExtra|, m.data);
  }

  lemma CentralParts(buf: seq<Byte>, o: nat, m: Member, local: nat)
    requires MemberOk(m) && local < 4294967296 && HasAt(buf, o, PrintCentral(m, local))
    ensures HasAt(buf, o, LE32(CENTRAL_SIG)) && HasAt(buf, o + 10, LE16(m.method'))
            && HasAt(buf, o + 20, LE32(|m.data|))
    ensures HasAt(buf, o + 28, LE16(|m.name|)) && HasAt(buf, o + 30, LE16(|m.extra|))
            && HasAt(buf, o + 32, LE16(|m.comment|))
    ensures HasAt(buf, o + 42, LE32(local)) && HasAt(buf, o + 46, m.name)
    ensures |PrintCentral(m, local)| == 46 + |m.name| + |m.extra| + |m.comment|
  {
    var t1 := m.name + (m.extra + m.comment);
    var t2 := LE32(local) + t1;
    var t3 := m.attributes + t2;
    var t4 := LE16(|m.comment|) + t3;
    var t5 := LE16(|m.extra|) + t4;
    var t6 := LE16(|m.name|) + t5;
    var t7 := m.fullSize + t6;
    var t8 := LE32(|m.data|) + t7;
    var t9 := m.stamp + t8;
    var t10 := LE16(m.method') + t9;
    HasAtSplit(buf, o, LE32(CENTRAL_SIG), m.version + t10);
    HasAtSplit(buf, o + 4, m.version, t10);
    HasAtSplit(buf, o + 10, LE16(m.method'), t9);
    HasAtSplit(buf, o + 12, m.stamp, t8);
    HasAtSplit(buf, o + 20, LE32(|m.data|), t7);
    HasAtSplit(buf, o + 24, m.fullSize, t6);
    HasAtSplit(buf, o + 28, LE16(|m.name|), t5);
    HasAtSplit(buf, o + 30, LE16(|m.extra|), t4);
    HasAtSplit(buf, o + 32, LE16(|m.comment|), t3);
    HasAtSplit(buf, o + 34, m.attributes, t2);
    HasAtSplit(buf, o + 42, LE32(local), t1);
    HasAtSplit(buf, o + 46, m.name, m.extra + m.comment);
  }

  function Fields(m: Member, local: nat): Central {
    Central(m.method', |m.data|, |m.name|, |m.extra|, |m.comment|, local)
  }

  lemma CentralAt(buf: seq<Byte>, o: nat, m: Member, local: nat)
    requires MemberOk(m) && local < 4294967296 && HasAt(buf, o, PrintCentral(m, local))
    ensures ParseCentral(buf, o) == Entry(Fields(m, local), m.name)
    ensures |PrintCentral(m, local)| == 46 + |m.name| + |m.extra| + |m.comment|
  {
    CentralParts(buf, o, m, local);
    ReadLE32(buf, o, CENTRAL_SIG);
    ReadLE16(buf, o + 10, m.method');
    ReadLE32(buf, o + 20, |m.data|);
    ReadLE16(buf, o + 28, |m.name|);
    ReadLE16(buf, o + 30, |m.extra|);
    ReadLE16(buf, o + 32, |m.comment|);
    ReadLE32(buf, o + 42, local);
    SliceAt(buf, o + 46, m.name);
  }

  lemma PrintedLocal(buf: seq<Byte>, m: Member, local: nat, inflate: Inflate)
    requires MemberOk(m) && HasAt(buf, local, PrintLocal(m))
    ensures ReadLocal(buf, Fields(m, local), inflate) == Unpack(m.method', m.data, inflate)
  {
    LocalNumbers(buf, local, m);
  }

  lemma DecideOn(parsed: Parsed, c: Central, fileName: seq<Byte>, name: seq<Byte>, o: nat, read: Central -> Reading,
                 reading: Reading)
    requires parsed == Entry(c, fileName) && read(c) == reading
    ensures Decide(parsed, name, o, read)
            == if Basename(fileName) == name then Stop(reading) else Go(o + 46 + c.nameLen + c.extraLen + c.commentLen)
  {
  }

  lemma PrintedTurn(buf: seq<Byte>, m: Member, local: nat, cd: nat, name: seq<Byte>, inflate: Inflate)
    requires MemberOk(m) && local < 4294967296
    requires HasAt(buf, local, PrintLocal(m)) && HasAt(buf, cd, PrintCentral(m, local))
    ensures EntryTurn(buf, name, inflate)(cd)
            == if Basename(m.name) == name then Stop(Unpack(m.method', m.data, inflate))
               else Go(cd + |PrintCentral(m, local)|)
  {
    CentralAt(buf, cd, m, local);
    PrintedLocal(buf, m, local, inflate);
    DecideOn(ParseCentral(buf, cd), Fields(m, local), m.name, name, cd, (c: Central) => ReadLocal(buf, c, inflate),
             Unpack(m.method', m.data, inflate));
  }

  /** What the loop must do at member i's entry. */
  function TurnFor(ms: seq<Member>, offsets: seq<nat>, i: nat, name: seq<Byte>, inflate: Inflate): Turn
    requires i < |ms| && |offsets| == |ms| + 1
  {
    if Basename(ms[i].name) == name then Stop(Unpack(ms[i].method', ms[i].data, inflate)) else Go(offsets[i + 1])
  }

  lemma {:induction false} WalkFinds(turn: nat -> Turn, ms: seq<Member>, offsets: seq<nat>, i: nat, name: seq<Byte>,
                                     inflate: Inflate)
    requires i <= |ms| && |offsets| == |ms| + 1
    requires forall k :: 0 <= k < |ms| ==> turn(offsets[k]) == TurnFor(ms, offsets, k, name, inflate)
    ensures Walk(turn, offsets[i], |ms| - i) == Lookup(ms[i..], name, inflate)
    decreases |ms| - i
  {
    if i < |ms| {
      WalkFinds(turn, ms, offsets, i + 1, name, inflate);
      assert ms[i..][0] == ms[i] && ms[i..][1..] == ms[i + 1..];
    }
  }

  lemma TurnAt(buf: seq<Byte>, ms: seq<Member>, stub: nat, cd: nat, i: nat, name: seq<Byte>, inflate: Inflate)
    requires AllOk(ms) && stub + |PrintLocals(ms)| < 4294967296 && i < |ms|
    requires HasAt(buf, stub, PrintLocals(ms)) && HasAt(buf, cd, PrintCentrals(ms, stub))
    ensures EntryTurn(buf, name, inflate)(BlockOffset(CentralBlocks(ms, stub), cd, i))
            == if Basename(ms[i].name) == name then Stop(Unpack(ms[i].method', ms[i].data, inflate))
               else Go(BlockOffset(CentralBlocks(ms, stub), cd, i + 1))
  {
    BlockAt(buf, LocalBlocks(ms), stub, i);
    BlockAt(buf, CentralBlocks(ms, stub), cd, i);
    BlockOffsetNext(CentralBlocks(ms, stub), cd, i);
    PrintedTurn(buf, ms[i], BlockOffset(LocalBlocks(ms), stub, i), BlockOffset(CentralBlocks(ms, stub), cd, i), name,
        inflate);
  }

  /** Walking a printed directory finds the first member with the base name. */
  lemma EntriesRoundTrip(buf: seq<Byte>, ms: seq<Member>, stub: nat, cd: nat, name: seq<Byte>, inflate: Inflate)
    requires AllOk(ms) && stub + |PrintLocals(ms)| < 4294967296
    requires HasAt(buf, stub, PrintLocals(ms)) && HasAt(buf, cd, PrintCentrals(ms, stub))
    ensures Walk(EntryTurn(buf, name, inflate), cd, |ms|) == Lookup(ms, name, inflate)
  {
    var turn := EntryTurn(buf, name, inflate);
    var blocks := CentralBlocks(ms, stub);
    var offsets: seq<nat> := seq(|ms| + 1, i requires 0 <= i <= |ms| => BlockOffset(blocks, cd, i));
    forall k | 0 <= k < |ms| ensures turn(offsets[k]) == TurnFor(ms, offsets, k, name, inflate) {
      TurnAt(buf, ms, stub, cd, k, name, inflate);
    }
    WalkFinds(turn, ms, offsets, 0, name, inflate);
    assert ms[0..] == ms;
  }

  lemma EndAt(buf: seq<Byte>, o: nat, count: nat, cd: nat, disks: seq<Byte>, directorySize: seq<Byte>, tail: seq<Byte>)
    requires count < 65536 && cd < 4294967296 && |disks| == 6 && |directorySize| == 4
    requires HasAt(buf, o, PrintEnd(count, cd, disks, directorySize, tail))
    ensures U32(buf, o) == Some(END_SIG) && U16(buf, o + 10) == Some(count) && U32(buf, o + 16) == Some(cd)
  {
    HasAtSplit(buf, o, LE32(END_SIG), disks + (LE16(count) + (directorySize + (LE32(cd) + tail))));
    HasAtSplit(buf, o + 4, disks, LE16(count) + (directorySize + (LE32(cd) + tail)));
    HasAtSplit(buf, o + 10, LE16(count), directorySize + (LE32(cd) + tail));
    HasAtSplit(buf, o + 12, directorySize, LE32(cd) + tail);
    HasAtSplit(buf, o + 16, LE32(cd), tail);
    ReadLE32(buf, o, END_SIG);
    ReadLE16(buf, o + 10, count);
    ReadLE32(buf, o + 16, cd);
  }

  /** buf holds the three parts, one after the other from offset stub to its end. */
  ghost predicate IsArchive(buf: seq<Byte>, stub: nat, locals: seq<Byte>, directory: seq<Byte>, end: seq<Byte>) {
    && HasAt(buf, stub, locals)
    && HasAt(buf, stub + |locals|, directory)
    && HasAt(buf, stub + |locals| + |directory|, end)
    && |buf| == stub + |locals| + |directory| + |end|
  }

  /** Which is what writing them behind any stub gives. */
  lemma Concatenated(stub: seq<Byte>, locals: seq<Byte>, directory: seq<Byte>, end: seq<Byte>)
    ensures IsArchive(stub + (locals + (directory + end)), |stub|, locals, directory, end)
  {
    var buf := stub + (locals + (directory + end));
    assert HasAt(buf, 0, buf);
    HasAtSplit(buf, 0, stub, locals + (directory + end));
    HasAtSplit(buf, |stub|, locals, directory + end);
    HasAtSplit(buf, |stub| + |locals|, directory, end);
  }

  /** No offset after the given one reads as the end record's signature. */
  ghost predicate LastEnd(buf: seq<Byte>, end: nat) {
    forall j: nat :: end < j <= |buf| - END_SIZE ==> U32(buf, j) != Some(END_SIG)
  }

  lemma SearchFinds(buf: seq<Byte>, end: nat, count: nat, cd: nat, disks: seq<Byte>, directorySize: seq<Byte>,
                    tail: seq<Byte>)
    requires count < 65536 && cd < 4294967296 && |disks| == 6 && |directorySize| == 4 && |tail| >= 2
    requires HasAt(buf, end, PrintEnd(count, cd, disks, directorySize, tail)) && |buf| == end + 20 + |tail|
    requires LastEnd(buf, end)
    ensures ParseEnd(buf) == EndRecord(count, cd)
  {
    EndAt(buf, end, count, cd, disks, directorySize, tail);
    assert EndFrom(buf, |buf| - END_SIZE) == end;
  }

  lemma EndLength(count: nat, cd: nat, disks: seq<Byte>, directorySize: seq<Byte>, tail: seq<Byte>)
    requires count < 65536 && cd < 4294967296 && |disks| == 6 && |directorySize| == 4
    ensures |PrintEnd(count, cd, disks, directorySize, tail)| == 20 + |tail|
  {
  }

  /**
   * Reading a printed archive, with anything before the first member, gives what the first
   * member with the wanted base name holds: its bytes if stored, its inflation if deflated.
   * The one condition is the one the backward search needs: no offset after the end record
   * reads as the end record's signature.
   */
  lemma ZipRoundTrip(buf: seq<Byte>, stub: nat, ms: seq<Member>, disks: seq<Byte>, directorySize: seq<Byte>,
                     tail: seq<Byte>,
                     name: seq<Byte>, inflate: Inflate)
    requires AllOk(ms) && |ms| < 65536 && stub + |PrintLocals(ms)| < 4294967296
    requires |disks| == 6 && |directorySize| == 4 && |tail| >= 2
    requires IsArchive(buf, stub, PrintLocals(ms), PrintCentrals(ms, stub),
                       PrintEnd(|ms|, stub + |PrintLocals(ms)|, disks, directorySize, tail))
    requires LastEnd(buf, |buf| - 20 - |tail|)
    ensures Read(buf, name, inflate) == Lookup(ms, name, inflate)
  {
    var cd := stub + |PrintLocals(ms)|;
    EndLength(|ms|, cd, disks, directorySize, tail);
    SearchFinds(buf, cd + |PrintCentrals(ms, stub)|, |ms|, cd, disks, directorySize, tail);
    EntriesRoundTrip(buf, ms, stub, cd, name, inflate);
  }

  /** Member i is the first with the wanted base name. */
  ghost predicate FirstNamed(ms: seq<Member>, i: nat, name: seq<Byte>) {
    i < |ms| && Basename(ms[i].name) == name && forall j :: 0 <= j < i ==> Basename(ms[j].name) != name
  }

  /** What the printed archive holds, method by method: a stored member's bytes, a deflated member's
      inflation, and an error for what does not inflate or has another method. */
  lemma {:induction false} LookupFirst(ms: seq<Member>, i: nat, name: seq<Byte>, inflate: Inflate)
    requires FirstNamed(ms, i, name)
    ensures ms[i].method' == 0 ==> Lookup(ms, name, inflate) == Extracted(ms[i].data)
    ensures ms[i].method' == 8 ==>
              Lookup(ms, name, inflate) == match inflate(ms[i].data)
                                           case Some(d) => Extracted(d)
                                           case None => Failed(InflateFailed)
    ensures ms[i].method' != 0 && ms[i].method' != 8 ==> Lookup(ms, name, inflate) == Failed(Unsupported(ms[i].method'))
  {
    if i > 0 {
      assert forall j :: 0 <= j < i - 1 ==> ms[1..][j] == ms[j + 1];
      LookupFirst(ms[1..], i - 1, name, inflate);
    }
  }

  lemma {:induction false} LookupNone(ms: seq<Member>, name: seq<Byte>, inflate: Inflate)
    requires forall j :: 0 <= j < |ms| ==> Basename(ms[j].name) != name
    ensures Lookup(ms, name, inflate) == Failed(NotFound)
  {
    if ms != [] {
      assert forall j :: 0 <= j < |ms| - 1 ==> ms[1..][j] == ms[j + 1];
      LookupNone(ms[1..], name, inflate);
    }
  }

  /** So a stored file is read back as it was written behind any stub, whatever the other members hold. */
  lemma StoredFileReadBack(buf: seq<Byte>, stub: nat, ms: seq<Member>, disks: seq<Byte>, directorySize: seq<Byte>,
                           tail: seq<Byte>, name: seq<Byte>, inflate: Inflate, i: nat)
    requires AllOk(ms) && |ms| < 65536 && stub + |PrintLocals(ms)| < 4294967296
    requires |disks| == 6 && |directorySize| == 4 && |tail| >= 2
    requires IsArchive(buf, stub, PrintLocals(ms), PrintCentrals(ms, stub),
                       PrintEnd(|ms|, stub + |PrintLocals(ms)|, disks, directorySize, tail))
    requires LastEnd(buf, |buf| - 20 - |tail|)
    requires FirstNamed(ms, i, name)
    ensures ms[i].method' == 0 ==> Read(buf, name, inflate) == Extracted(ms[i].data)
    ensures ms[i].method' == 8 && inflate(ms[i].data).Some? ==>
              Read(buf, name, inflate) == Extracted(inflate(ms[i].data).value)
  {
    ZipRoundTrip(buf, stub, ms, disks, directorySize, tail, name, inflate);
    LookupFirst(ms, i, name, inflate);
  }

  /** That condition is exact: the backward search ends at a true record if and only if no later
      offset reads as the signature. */
  lemma SearchExactIff(buf: seq<Byte>, end: nat)
    requires end <= |buf| - END_SIZE && U32(buf, end) == Some(END_SIG)
    ensures EndFrom(buf, |buf| - END_SIZE) == end <==> LastEnd(buf, end)
  {
  }

  /** Without it the reading can differ: whatever members are printed, a comment that ends like an
      empty archive hides them all. */
  lemma CommentHidesMembers(buf: seq<Byte>, ms: seq<Member>, stub: nat, disks: seq<Byte>, directorySize: seq<Byte>,
                            note: seq<Byte>,
                            name: seq<Byte>, inflate: Inflate)
    requires AllOk(ms) && |disks| == 6 && |directorySize| == 4
    requires IsArchive(buf, stub, PrintLocals(ms), PrintCentrals(ms, stub),
                       PrintEnd(|ms|, stub + |PrintLocals(ms)|, disks, directorySize, note + Empty()))
    ensures Read(buf, name, inflate) == Failed(NotFound)
  {
    var cd := stub + |PrintLocals(ms)|;
    var head := LE32(END_SIG) + (disks + (LE16(|ms|) + (directorySize + (LE32(cd) + note))));
    var end := cd + |PrintCentrals(ms, stub)|;
    EndSplits(|ms|, cd, disks, directorySize, note, Empty());
    HasAtSplit(buf, end, head, Empty());
    NoMembersFound(buf, end + |head|, name, inflate);
  }

  lemma EndSplits(count: nat, cd: nat, disks: seq<Byte>, directorySize: seq<Byte>, note: seq<Byte>, rest: seq<Byte>)
    ensures PrintEnd(count, cd, disks, directorySize, note + rest)
            == (LE32(END_SIG) + (disks + (LE16(count) + (directorySize + (LE32(cd) + note))))) + rest
  {
  }

  lemma NoMembersFound(buf: seq<Byte>, end: nat, name: seq<Byte>, inflate: Inflate)
    requires HasAt(buf, end, Empty()) && |buf| == end + |Empty()|
    ensures Read(buf, name, inflate) == Failed(NotFound)
  {
    SearchFinds(buf, end, 0, 0, Zeros(6), Zeros(4), Zeros(2));
  }

  function Zeros(n: nat): seq<Byte> { seq(n, _ => 0) }

  /** The archive without members. */
  function Empty(): seq<Byte> { PrintEnd(0, 0, Zeros(6), Zeros(4), Zeros(2)) }

  /** The signatures are "PK" and two bytes: 5 6 of the end record, 1 2 of a directory entry, 3 4 of a
      local header. */
  lemma SignatureBytes()
    ensures LE32(END_SIG) == [0x50, 0x4b, 5, 6] && LE32(CENTRAL_SIG) == [0x50, 0x4b, 1, 2]
    ensures LE32(LOCAL_SIG) == [0x50, 0x4b, 3, 4]
  {
  }
}
