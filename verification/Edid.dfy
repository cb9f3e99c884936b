/** EDID blocks: the checksum of tui/import/edid.h and the descriptor texts of tui/displayinfo.c. */
module Edid {
  import opened Arithmetic

  type Byte = b: int | 0 <= b < 256

  // ---------- checksum ----------

  ghost function Sum(s: seq<Byte>): nat {
    if s == [] then 0 else Sum(s[..|s| - 1]) + s[|s| - 1]
  }

  // The standard's condition: the bytes of the block add up to a multiple of 256.
  ghost predicate Accepted(s: seq<Byte>) {
    Sum(s) % 256 == 0
  }

  // edid_verify_checksum, whose accumulator is a uint8_t, for a block of any length.
  method VerifyChecksum(block: array<Byte>) returns (ok: bool)
    ensures ok <==> Accepted(block[..])
  {
    var checksum: Byte := 0;
    for i := 0 to block.Length
      invariant checksum == Sum(block[..i]) % 256
    {
      assert block[..i + 1][..i] == block[..i];
      checksum := (checksum + block[i]) % 256;
    }
    assert block[..block.Length] == block[..];
    ok := checksum == 0;
  }

  lemma {:induction false} SumConcat(s: seq<Byte>, t: seq<Byte>)
    ensures Sum(s + t) == Sum(s) + Sum(t)
  {
    if t == [] {
      assert s + t == s;
    } else {
      SumConcat(s, t[..|t| - 1]);
      assert (s + t)[..|s + t| - 1] == s + t[..|t| - 1];
    }
  }

  function ClosingByte(sum: nat): Byte {
    (256 - sum % 256) % 256
  }

  // Whatever comes first, exactly one last byte makes the block acceptable.
  lemma OneClosingByte(prefix: seq<Byte>, last: Byte)
    ensures Accepted(prefix + [last]) <==> last == ClosingByte(Sum(prefix))
  {
    SumAppend(prefix, last);
    ClosingArithmetic(Sum(prefix), last, Sum(prefix + [last]));
  }

  lemma SumAppend(s: seq<Byte>, b: Byte)
    ensures Sum(s + [b]) == Sum(s) + b
  {
    assert (s + [b])[..|s|] == s;
  }

  lemma ClosingArithmetic(sum: nat, last: Byte, total: nat)
    requires total == sum + last
    ensures total % 256 == 0 <==> last == ClosingByte(sum)
  {
    var q, r := sum / 256, sum % 256;
    if r + last < 256 {
      RemainderIs(q, r + last, 256);
    } else {
      RemainderIs(q + 1, r + last - 256, 256);
    }
  }

  // No change of one byte of an accepted block goes unnoticed.
  lemma SingleByteErrorsAreDetected(s: seq<Byte>, i: nat, b: Byte)
    requires Accepted(s) && i < |s| && b != s[i]
    ensures !Accepted(s[i := b])
  {
    var front, back := s[..i], s[i + 1..];
    assert s == front + [s[i]] + back && s[i := b] == front + [b] + back;
    SumAround(front, s[i], back);
    SumAround(front, b, back);
  }

  lemma SumAround(front: seq<Byte>, b: Byte, back: seq<Byte>)
    ensures Sum(front + [b] + back) == Sum(front + back) + b
  {
    SumConcat(front + [b], back);
    SumConcat(front, [b]);
    SumConcat(front, back);
    assert Sum([b]) == b by { assert [b][..0] == []; }
  }

  lemma {:induction false} SumIgnoresOrder(s: seq<Byte>, t: seq<Byte>)
    requires multiset(s) == multiset(t)
    ensures Sum(s) == Sum(t)
  {
    if s == [] {
      assert |multiset(t)| == 0;
    } else {
      var b := s[|s| - 1];
      assert b in multiset(s);
      var i :| 0 <= i < |t| && t[i] == b;
      var front, back := t[..i], t[i + 1..];
      assert t == front + [b] + back;
      assert s == s[..|s| - 1] + [b];
      assert multiset(s) == multiset(s[..|s| - 1]) + multiset{b};
      assert multiset(t) == multiset(front + back) + multiset{b};
      assert multiset(s[..|s| - 1]) == multiset(s) - multiset{b};
      assert multiset(front + back) == multiset(t) - multiset{b};
      SumIgnoresOrder(s[..|s| - 1], front + back);
      SumAround(front, b, back);
    }
  }

  // ... and the checksum cannot tell two blocks with the same bytes in another order apart.
  lemma AcceptanceIgnoresOrder(s: seq<Byte>, t: seq<Byte>)
    requires multiset(s) == multiset(t)
    ensures Accepted(s) <==> Accepted(t)
  {
    SumIgnoresOrder(s, t);
  }

  // ---------- display descriptor texts ----------

  const BLOCK_SIZE := 0x80
  const DESCRIPTORS := 4
  const DESCRIPTOR_BASE := 54
  const DESCRIPTOR_SIZE := 18
  const TEXT_SIZE := 13
  const MONITOR_NAME: Byte := 0xfc
  const MONITOR_SERIAL_NUMBER: Byte := 0xff
  const EINVAL := 22
  const MAX_NAME_SIZE := 100
  const NEWLINE: Byte := 10

  function DescriptorAt(i: nat): nat {
    DESCRIPTOR_BASE + DESCRIPTOR_SIZE * i
  }

  // edid_detailed_timing_is_monitor_descriptor, flags at 0 to 2 and 4, and the tag at 3.
  predicate IsMonitorDescriptor(edid: seq<Byte>, i: nat)
    requires BLOCK_SIZE <= |edid| && i < DESCRIPTORS
  {
    var d := DescriptorAt(i);
    edid[d] == 0 && edid[d + 1] == 0 && edid[d + 2] == 0 && edid[d + 4] == 0
  }

  // The i-th of the four descriptors, 18 bytes each from byte 54 on, is a display descriptor
  // with that tag: three zeros, the tag and another zero.
  ghost predicate IsTagged(edid: seq<Byte>, i: nat, tag: Byte)
    requires 128 <= |edid| && i < 4
  {
    edid[54 + 18 * i..59 + 18 * i] == [0, 0, 0, tag, 0]
  }

  ghost predicate IsFirst(edid: seq<Byte>, i: nat, tag: Byte)
    requires 128 <= |edid| && i < 4
  {
    IsTagged(edid, i, tag) && forall j :: 0 <= j < i ==> !IsTagged(edid, j, tag)
  }

  // The text of the i-th descriptor: the 13 bytes that are left of it.
  ghost function TextField(edid: seq<Byte>, i: nat): seq<Byte>
    requires 128 <= |edid| && i < 4
  {
    edid[59 + 18 * i..72 + 18 * i]
  }

  lemma TaggedIs(edid: seq<Byte>, i: nat, tag: Byte)
    requires 128 <= |edid| && i < 4
    ensures IsTagged(edid, i, tag) <==> IsMonitorDescriptor(edid, i) && edid[DescriptorAt(i) + 3] == tag
  {
    var d := 54 + 18 * i;
    var flags := edid[d..d + 5];
    assert flags[0] == edid[d] && flags[1] == edid[d + 1] && flags[2] == edid[d + 2];
    assert flags[3] == edid[d + 3] && flags[4] == edid[d + 4];
  }

  // The C string in name is the field up to its first newline or NUL, all of it if it has none.
  ghost predicate IsCut(name: seq<Byte>, field: seq<Byte>) {
    exists n :: 0 <= n <= |field| && IsCutAt(name, field, n)
  }

  ghost predicate IsCutAt(name: seq<Byte>, field: seq<Byte>, n: nat)
    requires n <= |field|
  {
    && n < |name| && name[..n] == field[..n] && name[n] == 0
    && (forall k :: 0 <= k < n ==> field[k] != 0 && field[k] != 10)
    && (n < |field| ==> field[n] == 0 || field[n] == 10)
  }

  // The leading bytes that are not in stops.
  function Before(s: seq<Byte>, stops: set<Byte>): seq<Byte> {
    if s == [] || s[0] in stops then [] else [s[0]] + Before(s[1..], stops)
  }

  lemma {:induction false} BeforeIs(s: seq<Byte>, stops: set<Byte>, n: nat)
    requires n <= |s| && (forall k :: 0 <= k < n ==> s[k] !in stops) && (n == |s| || s[n] in stops)
    ensures Before(s, stops) == s[..n]
  {
    if n > 0 {
      BeforeIs(s[1..], stops, n - 1);
      assert s[..n] == [s[0]] + s[1..][..n - 1];
    }
  }

  lemma {:induction false} BeforeStops(s: seq<Byte>, stops: set<Byte>)
    ensures var t := Before(s, stops);
            && t <= s && (forall k :: 0 <= k < |t| ==> t[k] !in stops) && (|t| < |s| ==> s[|t|] in stops)
  {
    if s != [] && s[0] !in stops { BeforeStops(s[1..], stops); }
  }

  function CString(s: seq<Byte>): seq<Byte> {
    Before(s, {0})
  }

  // strncpy: the bytes of src before its first NUL, at most n of them, padded with NULs to n.
  method StrNCpy(dst: array<Byte>, src: seq<Byte>, n: nat)
    requires n <= dst.Length && n <= |src|
    modifies dst
    ensures forall k :: 0 <= k < n ==> dst[k] == if k < |CString(src[..n])| then src[k] else 0
    ensures forall k :: n <= k < dst.Length ==> dst[k] == old(dst[k])
  {
    var i := 0;
    while i < n && src[i] != 0
      invariant i <= n && forall k :: 0 <= k < i ==> src[k] != 0 && dst[k] == src[k]
      invariant forall k :: n <= k < dst.Length ==> dst[k] == old(dst[k])
    {
      dst[i] := src[i];
      i := i + 1;
    }
    BeforeIs(src[..n], {0}, i);
    for k := i to n
      invariant forall j :: 0 <= j < i ==> dst[j] == src[j]
      invariant forall j :: i <= j < k ==> dst[j] == 0
      invariant forall j :: n <= j < dst.Length ==> dst[j] == old(dst[j])
    {
      dst[k] := 0;
    }
  }

  // strchr on a terminated string; the index is dst.Length when the byte is not there.
  method StrChr(dst: array<Byte>, c: Byte) returns (p: nat)
    requires c != 0 && exists k :: 0 <= k < dst.Length && dst[k] == 0
    ensures p <= dst.Length
    ensures p < dst.Length ==> dst[p] == c && forall k :: 0 <= k < p ==> dst[k] != 0 && dst[k] != c
    ensures p == dst.Length ==> c !in CString(dst[..])
  {
    p := 0;
    while dst[p] != 0 && dst[p] != c
      invariant p < dst.Length && forall k :: 0 <= k < p ==> dst[k] != 0 && dst[k] != c
      invariant exists k :: p <= k < dst.Length && dst[k] == 0
      decreases dst.Length - p
    {
      p := p + 1;
    }
    if dst[p] == 0 {
      BeforeIs(dst[..], {0}, p);
      p := dst.Length;
    }
  }

  // edidGetMonitorName and edidGetSerialNumber, which differ only in the tag. The copy takes
  // 14 bytes, one more than the descriptor's text has.
  method GetDescriptorText(edid: seq<Byte>, tag: Byte, name: array<Byte>) returns (ret: int)
    requires 128 <= |edid| && name.Length == MAX_NAME_SIZE
    requires forall k :: 0 <= k < name.Length ==> name[k] == 0
    modifies name
    ensures ret == 0 || ret == -22
    ensures ret == 0 <==> exists i :: 0 <= i < 4 && IsTagged(edid, i, tag)
    ensures ret != 0 ==> name[..] == old(name[..])
    ensures ret == 0 ==> forall i :: 0 <= i < 4 && IsFirst(edid, i, tag) ==> IsCut(name[..], TextField(edid, i))
  {
    for i := 0 to DESCRIPTORS
      invariant forall j :: 0 <= j < i ==> !IsTagged(edid, j, tag)
      invariant name[..] == old(name[..])
    {
      TaggedIs(edid, i, tag);
      if !IsMonitorDescriptor(edid, i) {
        continue;
      }
      if edid[DescriptorAt(i) + 3] == tag {
        CopyText(edid[DescriptorAt(i) + 5..], name);
        assert TextField(edid, i) == edid[DescriptorAt(i) + 5..][..TEXT_SIZE];
        return 0;
      }
    }
    ret := -EINVAL;
  }

  // The lines that copy a descriptor's text.
  method CopyText(data: seq<Byte>, name: array<Byte>)
    requires TEXT_SIZE < |data| && name.Length == MAX_NAME_SIZE
    requires forall k :: 0 <= k < name.Length ==> name[k] == 0
    modifies name
    ensures IsCut(name[..], data[..TEXT_SIZE])
  {
    StrNCpy(name, data, TEXT_SIZE + 1);
    ghost var copied := |CString(data[..TEXT_SIZE + 1])|;
    CStringLength(data[..TEXT_SIZE + 1]);
    assert name[TEXT_SIZE + 1] == 0;
    BeforeIs(name[..], {0}, copied);
    var p := StrChr(name, NEWLINE);
    ghost var length := if p < name.Length then p else if copied < TEXT_SIZE then copied else TEXT_SIZE;
    assert p == name.Length ==> forall k :: 0 <= k < copied ==> name[k] == CString(name[..])[k];
    if p < name.Length {
      name[p] := 0;
    } else {
      name[TEXT_SIZE] := 0;
    }
    assert IsCutAt(name[..], data[..TEXT_SIZE], length);
  }

  lemma {:induction false} CStringLength(s: seq<Byte>)
    ensures var n := |CString(s)|; n <= |s| && (forall k :: 0 <= k < n ==> s[k] != 0) && (n == |s| || s[n] == 0)
  {
    if s != [] && s[0] != 0 {
      CStringLength(s[1..]);
      var n := |CString(s[1..])|;
      assert forall k :: 0 < k <= n ==> s[k] == s[1..][k - 1] || k == |s|;
    }
  }

  lemma CutIs(name: seq<Byte>, field: seq<Byte>)
    requires IsCut(name, field)
    ensures CString(name) == Before(field, {0, 10})
  {
    var n :| 0 <= n <= |field| && IsCutAt(name, field, n);
    assert forall k :: 0 <= k < n ==> name[k] == name[..n][k] == field[..n][k] == field[k];
    BeforeIs(name, {0}, n);
    BeforeIs(field, {0, 10}, n);
  }

  // ---------- blocks put together as the standard has it ----------

  /** One of the four 18-byte descriptors: a timing, whose pixel clock in its first two bytes is
      not 0, or a display descriptor with a text. */
  datatype Descriptor = Timing(bytes: seq<Byte>) | Text(tag: Byte, text: seq<Byte>) {

    ghost predicate Proper() {
      match this
      case Timing(bytes) => |bytes| == 18 && (bytes[0] != 0 || bytes[1] != 0)
      case Text(_, text) => |text| == 13
    }

    function Bytes(): seq<Byte> {
      match this
      case Timing(bytes) => bytes
      case Text(tag, text) => [0, 0, 0, tag, 0] + text
    }
  }

  // 54 bytes of header, the four descriptors, and at least the last two bytes of the base block.
  function Block(header: seq<Byte>, ds: seq<Descriptor>, tail: seq<Byte>): seq<Byte>
    requires |ds| == 4
  {
    header + (ds[0].Bytes() + (ds[1].Bytes() + (ds[2].Bytes() + (ds[3].Bytes() + tail))))
  }

  ghost predicate ProperBlock(header: seq<Byte>, ds: seq<Descriptor>, tail: seq<Byte>) {
    |header| == 54 && |ds| == 4 && |tail| >= 2 && forall i :: 0 <= i < 4 ==> ds[i].Proper()
  }

  lemma Behind(front: seq<Byte>, s: seq<Byte>, at: nat, n: nat)
    requires at + n <= |s|
    ensures (front + s)[|front| + at..|front| + at + n] == s[at..at + n]
  {
  }

  lemma FourParts(h: seq<Byte>, a: seq<Byte>, b: seq<Byte>, c: seq<Byte>, d: seq<Byte>, t: seq<Byte>)
    requires |h| == 54 && |a| == |b| == |c| == |d| == 18
    ensures var block := h + (a + (b + (c + (d + t))));
            && |block| == 126 + |t|
            && block[54..72] == a && block[72..90] == b && block[90..108] == c && block[108..126] == d
  {
    var fromD := d + t;
    var fromC := c + fromD;
    var fromB := b + fromC;
    var fromA := a + fromB;
    Behind(h, fromA, 0, 18);
    Behind(h, fromA, 18, 18);
    Behind(h, fromA, 36, 18);
    Behind(h, fromA, 54, 18);
    Behind(a, fromB, 0, 18);
    Behind(a, fromB, 18, 18);
    Behind(a, fromB, 36, 18);
    Behind(b, fromC, 0, 18);
    Behind(b, fromC, 18, 18);
    Behind(c, fromD, 0, 18);
    assert fromA[0..18] == a && fromB[0..18] == b && fromC[0..18] == c && fromD[0..18] == d;
  }

  lemma DescriptorsOfBlock(header: seq<Byte>, ds: seq<Descriptor>, tail: seq<Byte>)
    requires ProperBlock(header, ds, tail)
    ensures var block := Block(header, ds, tail);
            && |block| == 126 + |tail|
            && block[54..72] == ds[0].Bytes() && block[72..90] == ds[1].Bytes()
            && block[90..108] == ds[2].Bytes() && block[108..126] == ds[3].Bytes()
  {
    assert ds[0].Proper() && ds[1].Proper() && ds[2].Proper() && ds[3].Proper();
    FourParts(header, ds[0].Bytes(), ds[1].Bytes(), ds[2].Bytes(), ds[3].Bytes(), tail);
  }

  ghost predicate IsText(d: Descriptor, tag: Byte) {
    d.Text? && d.tag == tag
  }

  lemma FlagsOf(d: Descriptor, tag: Byte)
    requires d.Proper()
    ensures |d.Bytes()| == 18 && (d.Bytes()[..5] == [0, 0, 0, tag, 0] <==> IsText(d, tag))
    ensures d.Text? ==> d.Bytes()[5..] == d.text
  {
    var flags := d.Bytes()[..5];
    assert flags[0] == d.Bytes()[0] && flags[1] == d.Bytes()[1];
    if d.Text? {
      assert flags == [0, 0, 0, d.tag, 0];
      assert flags[3] == d.tag;
    }
  }

  lemma TagIs(block: seq<Byte>, i: nat, d: Descriptor, tag: Byte, at: nat)
    requires 128 <= |block| && i < 4 && at == 54 + 18 * i && d.Proper() && block[at..at + 18] == d.Bytes()
    ensures IsTagged(block, i, tag) <==> IsText(d, tag)
    ensures IsText(d, tag) ==> TextField(block, i) == d.text
  {
    FlagsOf(d, tag);
    assert block[at..at + 5] == block[at..at + 18][..5];
    assert block[at + 5..at + 18] == block[at..at + 18][5..];
  }

  lemma TagsOfBlock(block: seq<Byte>, ds: seq<Descriptor>, tag: Byte)
    requires |block| >= 128 && |ds| == 4 && forall i :: 0 <= i < 4 ==> ds[i].Proper()
    requires block[54..72] == ds[0].Bytes() && block[72..90] == ds[1].Bytes()
    requires block[90..108] == ds[2].Bytes() && block[108..126] == ds[3].Bytes()
    ensures forall i :: 0 <= i < 4 ==>
              && (IsTagged(block, i, tag) <==> IsText(ds[i], tag))
              && (IsText(ds[i], tag) ==> TextField(block, i) == ds[i].text)
  {
    forall i | 0 <= i < 4
      ensures IsTagged(block, i, tag) <==> IsText(ds[i], tag)
      ensures IsText(ds[i], tag) ==> TextField(block, i) == ds[i].text
    {
      TagIs(block, i, ds[i], tag, 54 + 18 * i);
    }
  }

  // The text of the first descriptor with the tag, whatever the other bytes of the block are.
  method ReadFromBlock(header: seq<Byte>, ds: seq<Descriptor>, tail: seq<Byte>, tag: Byte, name: array<Byte>)
    returns (ret: int)
    requires ProperBlock(header, ds, tail) && name.Length == MAX_NAME_SIZE
    requires forall k :: 0 <= k < name.Length ==> name[k] == 0
    modifies name
    ensures ret == if exists i :: 0 <= i < 4 && IsText(ds[i], tag) then 0 else -22
    ensures forall i :: 0 <= i < 4 && IsText(ds[i], tag) && (forall j :: 0 <= j < i ==> !IsText(ds[j], tag)) ==>
              IsCut(name[..], ds[i].text)
  {
    var block := Block(header, ds, tail);
    DescriptorsOfBlock(header, ds, tail);
    TagsOfBlock(block, ds, tag);
    ret := GetDescriptorText(block, tag, name);
  }
}
