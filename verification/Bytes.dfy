/** Byte buffers as the archive readers use them. */
module Bytes {
  import opened Util

  type Byte = x: int | 0 <= x < 256

  /** s lies in buf at offset o. */
  ghost predicate HasAt(buf: seq<Byte>, o: nat, s: seq<Byte>) {
    o + |s| <= |buf| && forall i :: 0 <= i < |s| ==> buf[o + i] == s[i]
  }

  lemma HasAtSplit(buf: seq<Byte>, o: nat, s: seq<Byte>, t: seq<Byte>)
    ensures HasAt(buf, o, s + t) <==> HasAt(buf, o, s) && HasAt(buf, o + |s|, t)
  {
    var st := s + t;
    if HasAt(buf, o, st) {
      forall i | 0 <= i < |s| ensures buf[o + i] == s[i] { assert st[i] == s[i]; }
      forall i | 0 <= i < |t| ensures buf[o + |s| + i] == t[i] { assert st[|s| + i] == t[i]; }
    }
    if HasAt(buf, o, s) && HasAt(buf, o + |s|, t) {
      forall i | 0 <= i < |st| ensures buf[o + i] == st[i] {
        if i >= |s| { assert st[i] == t[i - |s|]; }
      }
    }
  }

  lemma HasAtSlice(buf: seq<Byte>, o: nat, s: seq<Byte>)
    requires HasAt(buf, o, s)
    ensures buf[o..o + |s|] == s
  {
  }

  /** Buffer.subarray clamps its bounds to the buffer and counts a negative end from the buffer's end. */
  function Slice(buf: seq<Byte>, start: nat, end: int): seq<Byte> {
    var hi := if end < 0 then end + |buf| else if end > |buf| then |buf| else end;
    if start < hi then buf[start..hi] else []
  }

  lemma SliceAt(buf: seq<Byte>, o: nat, s: seq<Byte>)
    requires HasAt(buf, o, s)
    ensures Slice(buf, o, o + |s|) == s
  {
    HasAtSlice(buf, o, s);
  }

  // ----- Little-endian numbers; a read past the end throws -----

  function U16(buf: seq<Byte>, o: nat): Option<nat> {
    if o + 2 <= |buf| then Some(buf[o] as int + 256 * buf[o + 1] as int) else None
  }

  function U32(buf: seq<Byte>, o: nat): Option<nat> {
    if o + 4 <= |buf|
    then Some(buf[o] as int + 256 * buf[o + 1] as int + 65536 * buf[o + 2] as int + 16777216 * buf[o + 3] as int)
    else None
  }

  /** The low bytes of n. */
  function LE16(n: nat): seq<Byte> { [n % 256, n / 256 % 256] }

  function LE32(n: nat): seq<Byte> { [n % 256, n / 256 % 256, n / 65536 % 256, n / 16777216 % 256] }

  lemma ReadLE16(buf: seq<Byte>, o: nat, n: nat)
    requires n < 65536 && HasAt(buf, o, LE16(n))
    ensures U16(buf, o) == Some(n)
  {
    var s := LE16(n);
    assert buf[o + 0] == s[0] && buf[o + 1] == s[1];
  }

  lemma ReadLE32(buf: seq<Byte>, o: nat, n: nat)
    requires n < 4294967296 && HasAt(buf, o, LE32(n))
    ensures U32(buf, o) == Some(n)
  {
    var s := LE32(n);
    assert buf[o + 0] == s[0] && buf[o + 1] == s[1] && buf[o + 2] == s[2] && buf[o + 3] == s[3];
    var h := n / 256;
    var hh := h / 256;
    assert n / 65536 == hh && n / 16777216 == hh / 256;
    assert n == n % 256 + 256 * h && h == h % 256 + 256 * hh && hh == hh % 256 + 256 * (hh / 256);
  }

  // ----- Blocks one after the other -----

  function Flatten(blocks: seq<seq<Byte>>): seq<Byte> {
    if blocks == [] then [] else blocks[0] + Flatten(blocks[1..])
  }

  /** Where block i starts when the first starts at o. */
  function BlockOffset(blocks: seq<seq<Byte>>, o: nat, i: nat): nat
    requires i <= |blocks|
  {
    if i == 0 then o else BlockOffset(blocks[1..], o + |blocks[0]|, i - 1)
  }

  lemma {:induction false} BlockOffsetNext(blocks: seq<seq<Byte>>, o: nat, i: nat)
    requires i < |blocks|
    ensures BlockOffset(blocks, o, i + 1) == BlockOffset(blocks, o, i) + |blocks[i]|
    decreases i
  {
    if i > 0 {
      BlockOffsetNext(blocks[1..], o + |blocks[0]|, i - 1);
    }
  }

  lemma {:induction false} BlockAt(buf: seq<Byte>, blocks: seq<seq<Byte>>, o: nat, i: nat)
    requires i < |blocks| && HasAt(buf, o, Flatten(blocks))
    ensures HasAt(buf, BlockOffset(blocks, o, i), blocks[i])
    ensures BlockOffset(blocks, o, i) <= o + |Flatten(blocks)|
    decreases i
  {
    HasAtSplit(buf, o, blocks[0], Flatten(blocks[1..]));
    if i > 0 {
      BlockAt(buf, blocks[1..], o + |blocks[0]|, i - 1);
    }
  }

  // ----- File names -----

  const SLASH: Byte := 47
  const BACKSLASH: Byte := 92

  /** name.replace(/\\/g, '/').split('/').pop(), on the bytes of the name. */
  function Basename(name: seq<Byte>): seq<Byte> {
    if name == [] then []
    else
      var last := name[|name| - 1];
      if last == SLASH || last == BACKSLASH then [] else Basename(name[..|name| - 1]) + [last]
  }

  /** The base name is the longest tail without a separator. */
  lemma {:induction false} BasenameIsTail(name: seq<Byte>)
    ensures var b := Basename(name);
            && |b| <= |name| && name[|name| - |b|..] == b
            && SLASH !in b && BACKSLASH !in b
            && (|b| < |name| ==> name[|name| - |b| - 1] in {SLASH, BACKSLASH})
  {
    if name != [] {
      BasenameIsTail(name[..|name| - 1]);
    }
  }
}
