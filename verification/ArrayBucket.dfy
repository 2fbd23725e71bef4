/**
 The byte buffer of an array-hash bucket. Entries are packed one after the
 other, each as a 16-bit key size, the key, and a 16-bit value index; an
 impossible key size marks the end.

 A buffer is the memory block the bucket owns, with a null pointer as the
 empty sequence; bytes past the end marker are whatever the allocator or an
 earlier entry left there.
 */
module ArrayBucket {
  import opened Slices

  newtype byte = x: int | 0 <= x < 0x100

  type Key = seq<byte>

  type Buffer = seq<byte>

  const END_OF_BUCKET := 0xFFFF
  const MAX_KEY_SIZE := 0xFFFE

  datatype Entry = Entry(key: Key, index: nat) {
    predicate Storable() {
      |key| <= MAX_KEY_SIZE && index <= 0xFFFF
    }
  }

  predicate AllStorable(es: seq<Entry>) {
    forall i :: 0 <= i < |es| ==> es[i].Storable()
  }

  /** A 16-bit integer as memcpy stores it, low byte first. */
  function U16Bytes(n: nat): (b: seq<byte>)
    requires n <= 0xFFFF
    ensures |b| == 2
  {
    [(n % 0x100) as byte, (n / 0x100) as byte]
  }

  function ReadU16(b: Buffer, p: nat): (n: nat)
    requires p + 2 <= |b|
    ensures n <= 0xFFFF
  {
    b[p] as int + 0x100 * (b[p + 1] as int)
  }

  lemma ReadBack(b: Buffer, p: nat, n: nat)
    requires n <= 0xFFFF && OccursAt(b, p, U16Bytes(n))
    ensures ReadU16(b, p) == n
  {
    OccursAtIndex(b, p, U16Bytes(n));
    assert b[p + 0] == U16Bytes(n)[0] && b[p + 1] == U16Bytes(n)[1];
  }

  /** `entry_required_bytes`. */
  function EntrySize(keySize: nat): nat {
    2 + keySize + 2
  }

  function EntryBytes(e: Entry): (b: seq<byte>)
    requires e.Storable()
    ensures |b| == EntrySize(|e.key|)
  {
    U16Bytes(|e.key|) + e.key + U16Bytes(e.index)
  }

  /** The packed entries, without the end marker. */
  function Packed(es: seq<Entry>): seq<byte>
    requires AllStorable(es)
  {
    if es == [] then [] else Packed(es[..|es| - 1]) + EntryBytes(es[|es| - 1])
  }

  /** Where entry `i` starts; for `i == |es|`, where the end marker is. */
  function Offset(es: seq<Entry>, i: nat): nat
    requires AllStorable(es) && i <= |es|
  {
    |Packed(es[..i])|
  }

  function EndMark(): seq<byte> {
    U16Bytes(END_OF_BUCKET)
  }

  /** The buffer decodes to these entries. */
  ghost predicate Holds(b: Buffer, es: seq<Entry>) {
    if b == [] then es == []
    else AllStorable(es) && OccursAt(b, 0, Packed(es)) && OccursAt(b, |Packed(es)|, EndMark())
  }

  lemma PackedSnoc(es: seq<Entry>, e: Entry, all: seq<Entry>)
    requires AllStorable(es) && e.Storable() && all == es + [e]
    ensures AllStorable(all) && Packed(all) == Packed(es) + EntryBytes(e)
  {
    assert all[..|all| - 1] == es && all[|all| - 1] == e;
  }

  lemma {:induction false} PackedAppend(a: seq<Entry>, b: seq<Entry>)
    requires AllStorable(a) && AllStorable(b)
    ensures AllStorable(a + b) && Packed(a + b) == Packed(a) + Packed(b)
    decreases |b|
  {
    if b == [] {
      assert a + b == a;
    } else {
      var init, last := b[..|b| - 1], b[|b| - 1];
      PackedAppend(a, init);
      assert a + b == (a + init) + [last];
      PackedSnoc(a + init, last, a + b);
      ConcatAssociative(Packed(a), Packed(init), EntryBytes(last));
    }
  }

  lemma OffsetNext(es: seq<Entry>, i: nat)
    requires AllStorable(es) && i < |es|
    ensures Offset(es, i + 1) == Offset(es, i) + EntrySize(|es[i].key|)
    ensures Packed(es[..i + 1]) == Packed(es[..i]) + EntryBytes(es[i])
  {
    assert es[..i + 1][..i] == es[..i];
  }

  lemma PackedSplit(es: seq<Entry>, i: nat)
    requires AllStorable(es) && i <= |es|
    ensures Packed(es) == Packed(es[..i]) + Packed(es[i..])
    ensures Offset(es, i) <= |Packed(es)|
  {
    assert es == es[..i] + es[i..];
    PackedAppend(es[..i], es[i..]);
  }

  /** What is read at the start of an entry. */
  ghost predicate EntryAt(b: Buffer, p: nat, e: Entry) {
    && p + EntrySize(|e.key|) <= |b|
    && ReadU16(b, p) == |e.key|
    && b[p + 2..p + 2 + |e.key|] == e.key
    && ReadU16(b, p + 2 + |e.key|) == e.index
  }

  lemma EntryBytesAt(b: Buffer, p: nat, e: Entry)
    requires e.Storable()
    ensures OccursAt(b, p, EntryBytes(e)) ==> EntryAt(b, p, e)
  {
    if OccursAt(b, p, EntryBytes(e)) {
      OccursAtThree(b, p, U16Bytes(|e.key|), e.key, U16Bytes(e.index));
      ReadBack(b, p, |e.key|);
      ReadBack(b, p + 2 + |e.key|, e.index);
    }
  }

  /** Reading at the offset of entry `i` finds that entry. */
  lemma HoldsEntry(b: Buffer, es: seq<Entry>, i: nat)
    requires b != [] && Holds(b, es) && i < |es|
    ensures EntryAt(b, Offset(es, i), es[i])
    ensures ReadU16(b, Offset(es, i)) != END_OF_BUCKET
    ensures Offset(es, i + 1) == Offset(es, i) + EntrySize(|es[i].key|)
  {
    PackedSplit(es, i + 1);
    OccursAtParts(b, 0, Packed(es[..i + 1]), Packed(es[i + 1..]));
    OffsetNext(es, i);
    OccursAtParts(b, 0, Packed(es[..i]), EntryBytes(es[i]));
    EntryBytesAt(b, Offset(es, i), es[i]);
  }

  /** Reading past the last entry finds the end marker. */
  lemma HoldsEnd(b: Buffer, es: seq<Entry>)
    requires b != [] && Holds(b, es)
    ensures Offset(es, |es|) == |Packed(es)| && Offset(es, |es|) + 2 <= |b|
    ensures ReadU16(b, Offset(es, |es|)) == END_OF_BUCKET
  {
    assert es[..|es|] == es;
    ReadBack(b, |Packed(es)|, END_OF_BUCKET);
  }

  /** A buffer decodes to at most one list of entries, because no key size is the end marker. */
  lemma HoldsUnique(b: Buffer, es: seq<Entry>, fs: seq<Entry>)
    requires Holds(b, es) && Holds(b, fs)
    ensures es == fs
  {
    if b != [] {
      SamePrefix(b, es, fs, if |es| <= |fs| then |es| else |fs|);
      HoldsEnd(b, es);
      HoldsEnd(b, fs);
      if |es| < |fs| {
        HoldsEntry(b, fs, |es|);
      } else if |fs| < |es| {
        HoldsEntry(b, es, |fs|);
      }
    }
  }

  /** At the same offset two lists have the same entry. */
  lemma SameEntry(b: Buffer, es: seq<Entry>, fs: seq<Entry>, i: nat)
    requires b != [] && Holds(b, es) && Holds(b, fs) && i < |es| && i < |fs| && es[..i] == fs[..i]
    ensures es[i] == fs[i]
  {
    hide Holds, Packed;
    HoldsEntry(b, es, i);
    HoldsEntry(b, fs, i);
  }

  lemma {:induction false} SamePrefix(b: Buffer, es: seq<Entry>, fs: seq<Entry>, n: nat)
    requires b != [] && Holds(b, es) && Holds(b, fs) && n <= |es| && n <= |fs|
    ensures es[..n] == fs[..n]
  {
    hide Holds, Offset, Packed;
    if n > 0 {
      SamePrefix(b, es, fs, n - 1);
      SameEntry(b, es, fs, n - 1);
      assert es[..n] == es[..n - 1] + [es[n - 1]] && fs[..n] == fs[..n - 1] + [fs[n - 1]];
    }
  }

  // ---------------------------------------------------------------------------
  // Pieces of a buffer
  // ---------------------------------------------------------------------------

  lemma EndFits(b: Buffer, es: seq<Entry>)
    requires b != [] && Holds(b, es)
    ensures |Packed(es)| + 2 <= |b|
  {
    hide Packed;
  }

  /** From entry `i` on, the buffer holds the later entries and the end marker. */
  lemma HoldsTail(b: Buffer, es: seq<Entry>, i: nat)
    requires b != [] && Holds(b, es) && i <= |es|
    ensures Offset(es, i) <= |Packed(es)| && |Packed(es)| + 2 <= |b|
    ensures OccursAt(b, 0, Packed(es[..i]))
    ensures OccursAt(b, Offset(es, i), Packed(es[i..]) + EndMark())
    ensures Offset(es, i) + |Packed(es[i..])| == |Packed(es)|
  {
    hide Packed, OccursAt, EndMark;
    PackedSplit(es, i);
    OccursAtParts(b, 0, Packed(es[..i]), Packed(es[i..]));
    OccursAtConcat(b, Offset(es, i), Packed(es[i..]), EndMark());
    EndFits(b, es);
  }

  /** A buffer that starts with some entries and goes on with others holds them all. */
  lemma HoldsJoined(b: Buffer, p: nat, front: seq<Entry>, back: seq<Entry>, es: seq<Entry>)
    requires AllStorable(front) && AllStorable(back) && p == |Packed(front)| && es == front + back
    requires OccursAt(b, 0, Packed(front)) && OccursAt(b, p, Packed(back) + EndMark())
    ensures b != [] && Holds(b, es)
  {
    PackedAppend(front, back);
    OccursAtParts(b, p, Packed(back), EndMark());
    OccursAtConcat(b, 0, Packed(front), Packed(back));
  }

  lemma PackedOne(e: Entry)
    requires e.Storable()
    ensures Packed([e]) == EntryBytes(e)
  {
    assert [e][..0] == [];
  }

  lemma OccursInPrefix<T>(a: seq<T>, b: seq<T>, n: nat, t: seq<T>)
    requires n <= |a| && n <= |b| && a[..n] == b[..n] && OccursAt(a, 0, t) && |t| <= n
    ensures OccursAt(b, 0, t)
  {
    assert a[..|t|] == a[..n][..|t|] == b[..n][..|t|] == b[..|t|];
  }

  // ---------------------------------------------------------------------------
  // Operations
  // ---------------------------------------------------------------------------

  lemma OffsetStart(es: seq<Entry>)
    requires AllStorable(es)
    ensures Offset(es, 0) == 0
  {
  }

  /** `find_or_end_of_bucket`: the entry with this key, or the end marker. */
  method FindOrEnd(b: Buffer, key: Key, ghost es: seq<Entry>) returns (found: bool, p: nat, ghost i: nat)
    requires b != [] && Holds(b, es)
    ensures i <= |es| && p == Offset(es, i) && p + 2 <= |b|
    ensures forall j :: 0 <= j < i ==> es[j].key != key
    ensures found ==> i < |es| && es[i].key == key
    ensures !found ==> i == |es|
  {
    hide Packed, Offset, OccursAt;
    p, i := 0, 0;
    OffsetStart(es);
    HoldsEnd(b, es);
    while true
      invariant i <= |es| && p == Offset(es, i)
      invariant forall j :: 0 <= j < i ==> es[j].key != key
      decreases |es| - i
    {
      if i < |es| {
        HoldsEntry(b, es, i);
      }
      var size := ReadU16(b, p);
      if size == END_OF_BUCKET {
        return false, p, i;
      }
      if b[p + 2..p + 2 + size] == key {
        return true, p, i;
      }
      p := p + EntrySize(size);
      i := i + 1;
    }
  }

  /** The scan for the end marker, from the start of some entry. */
  method ScanEnd(b: Buffer, from: nat, ghost es: seq<Entry>, ghost i: nat) returns (p: nat)
    requires b != [] && Holds(b, es) && i <= |es| && from == Offset(es, i)
    ensures p == Offset(es, |es|) == |Packed(es)| && p + 2 <= |b|
  {
    p := from;
    HoldsEnd(b, es);
    ghost var j := i;
    while true
      invariant i <= j <= |es| && p == Offset(es, j)
      decreases |es| - j
    {
      if j < |es| {
        HoldsEntry(b, es, j);
      }
      if ReadU16(b, p) == END_OF_BUCKET {
        break;
      }
      p := p + EntrySize(ReadU16(b, p));
      j := j + 1;
    }
  }

  /** `append`: one more entry at the end, in a block of exactly the size needed. */
  method Append(b: Buffer, p: nat, e: Entry, ghost es: seq<Entry>) returns (r: Buffer)
    requires Holds(b, es) && e.Storable() && (b != [] ==> p == Offset(es, |es|))
    ensures Holds(r, es + [e]) && r != []
    ensures |r| == |Packed(es + [e])| + 2
  {
    PackedOne(e);
    if b == [] {
      r := EntryBytes(e) + EndMark();
      AppendedHolds(r, b, 0, e, es);
    } else {
      HoldsEnd(b, es);
      r := b[..p] + EntryBytes(e) + EndMark();
      AppendedHolds(r, b, p, e, es);
    }
  }

  lemma AppendedHolds(r: Buffer, b: Buffer, p: nat, e: Entry, es: seq<Entry>)
    requires Holds(b, es) && e.Storable() && AllStorable(es) && p == |Packed(es)| <= |b|
    requires r == b[..p] + EntryBytes(e) + EndMark()
    ensures r != [] && Holds(r, es + [e]) && |r| == |Packed(es + [e])| + 2
  {
    PackedOne(e);
    assert OccursAt(r, 0, b[..p]);
    assert b[..p] == Packed(es);
    assert r == b[..p] + (EntryBytes(e) + EndMark());
    assert OccursAt(r, p, EntryBytes(e) + EndMark());
    HoldsJoined(r, p, es, [e], es + [e]);
    PackedAppend(es, [e]);
  }

  /** `erase(position)`: later entries move down over the erased one; an emptied block is freed. */
  method EraseAt(b: Buffer, p: nat, ghost es: seq<Entry>, ghost i: nat) returns (r: Buffer, last: bool)
    requires b != [] && Holds(b, es) && i < |es| && p == Offset(es, i)
    ensures Holds(r, es[..i] + es[i + 1..])
    ensures r == [] <==> |es| == 1
    ensures last <==> i + 1 == |es|
    ensures !last ==> p == Offset(es[..i] + es[i + 1..], i)
  {
    HoldsEntry(b, es, i);
    var next := p + EntrySize(ReadU16(b, p));
    var end := ScanEnd(b, next, es, i + 1);
    HoldsTail(b, es, i + 1);
    HoldsTail(b, es, i);
    r := Overwrite(b, p, b[next..end + 2]);
    ErasedHolds(r, b, p, next, end + 2, es, i);
    ghost var rest := es[..i] + es[i + 1..];
    assert rest[..i] == es[..i];
    if i < |rest| {
      HoldsEntry(r, rest, i);
    }
    HoldsEnd(r, rest);
    last := ReadU16(r, p) == END_OF_BUCKET;
    if |rest| > 0 {
      HoldsEntry(r, rest, 0);
    }
    if ReadU16(r, 0) == END_OF_BUCKET {
      r := [];
    }
  }

  lemma EndSize()
    ensures |EndMark()| == 2
  {
  }

  lemma ErasedHolds(r: Buffer, b: Buffer, p: nat, next: nat, end: nat, es: seq<Entry>, i: nat)
    requires b != [] && Holds(b, es) && i < |es| && p == Offset(es, i) && next == Offset(es, i + 1)
    requires p <= next <= end <= |b| && end == |Packed(es)| + 2
    requires r == Overwrite(b, p, b[next..end])
    ensures r != [] && Holds(r, es[..i] + es[i + 1..])
  {
    hide Packed, EndMark;
    HoldsTail(b, es, i);
    HoldsTail(b, es, i + 1);
    EndSize();
    OverwriteOccurs(b, p, b[next..end]);
    assert b[next..end] == Packed(es[i + 1..]) + EndMark();
    OccursInPrefix(b, r, p, Packed(es[..i]));
    HoldsJoined(r, p, es[..i], es[i + 1..], es[..i] + es[i + 1..]);
  }

  /** The constructor that reserves room: a block with no entries, or no block at all. */
  method Reserve(size: nat) returns (r: Buffer)
    ensures size == 0 ==> r == []
    ensures size > 0 ==> |r| == size + 2
    ensures Holds(r, [])
  {
    if size == 0 {
      return [];
    }
    var block := new byte[size + 2];
    r := Overwrite(block[..], 0, EndMark());
    OverwriteOccurs(block[..], 0, EndMark());
  }

  /** `append_in_reserved_bucket_no_check`: the entry and the marker must fit the block. */
  method AppendReserved(b: Buffer, e: Entry, ghost es: seq<Entry>) returns (r: Buffer)
    requires b != [] && Holds(b, es) && e.Storable()
    requires |Packed(es)| + EntrySize(|e.key|) + 2 <= |b|
    ensures Holds(r, es + [e]) && |r| == |b|
  {
    var p := ScanEnd(b, 0, es, 0);
    r := Overwrite(b, p, EntryBytes(e) + EndMark());
    OverwriteOccurs(b, p, EntryBytes(e) + EndMark());
    PackedOne(e);
    OccursInPrefix(b, r, p, Packed(es));
    HoldsJoined(r, p, es, [e], es + [e]);
  }

  /** `set_value`: the index of one entry changes in place. */
  method SetIndex(b: Buffer, p: nat, index: nat, ghost es: seq<Entry>, ghost i: nat) returns (r: Buffer)
    requires b != [] && Holds(b, es) && i < |es| && p == Offset(es, i) && index <= 0xFFFF
    ensures Holds(r, es[i := Entry(es[i].key, index)]) && |r| == |b|
  {
    HoldsEntry(b, es, i);
    var at := p + 2 + ReadU16(b, p);
    r := Overwrite(b, at, U16Bytes(index));
    SetIndexHolds(r, b, p, at, index, es, i);
  }

  /** Overwriting the index bytes of an entry changes that entry's index. */
  lemma IndexRewritten(r: Buffer, b: Buffer, p: nat, at: nat, index: nat, e: Entry)
    requires e.Storable() && index <= 0xFFFF && OccursAt(b, p, EntryBytes(e))
    requires at == p + 2 + |e.key| && at + 2 <= |b| && r == Overwrite(b, at, U16Bytes(index))
    ensures OccursAt(r, p, EntryBytes(Entry(e.key, index)))
  {
    var head := U16Bytes(|e.key|) + e.key;
    OccursAtParts(b, p, head, U16Bytes(e.index));
    OverwriteOccurs(b, at, U16Bytes(index));
    assert r[p..at] == b[p..at] by { assert r[..at][p..at] == b[..at][p..at]; }
    OccursAtConcat(r, p, head, U16Bytes(index));
  }

  lemma SetIndexHolds(r: Buffer, b: Buffer, p: nat, at: nat, index: nat, es: seq<Entry>, i: nat)
    requires b != [] && Holds(b, es) && i < |es| && p == Offset(es, i) && index <= 0xFFFF
    requires at == p + 2 + |es[i].key| && at + 2 <= |b| && r == Overwrite(b, at, U16Bytes(index))
    ensures r != [] && Holds(r, es[i := Entry(es[i].key, index)])
  {
    hide Packed, EndMark, OccursAt;
    var f, q := Entry(es[i].key, index), at + 2;
    var front, back := es[..i], es[i + 1..];
    assert OccursAt(r, q, Packed(back) + EndMark()) by {
      HoldsTail(b, es, i + 1);
      OffsetNext(es, i);
      OccursAfterOverwrite(r, b, at, q, U16Bytes(index), Packed(back) + EndMark());
    }
    SetIndexFront(r, b, p, at, index, es, i);
    assert es[i := f] == front + [f] + back;
    ReplacedHolds(r, p, q, front, f, back, es[i := f]);
  }

  lemma SetIndexFront(r: Buffer, b: Buffer, p: nat, at: nat, index: nat, es: seq<Entry>, i: nat)
    requires b != [] && Holds(b, es) && i < |es| && p == Offset(es, i) && index <= 0xFFFF
    requires at == p + 2 + |es[i].key| && at + 2 <= |b| && r == Overwrite(b, at, U16Bytes(index))
    ensures OccursAt(r, 0, Packed(es[..i])) && OccursAt(r, p, EntryBytes(Entry(es[i].key, index)))
  {
    HoldsTail(b, es, i + 1);
    OffsetNext(es, i);
    OverwriteOccurs(b, at, U16Bytes(index));
    OccursAtParts(b, 0, Packed(es[..i]), EntryBytes(es[i]));
    OccursInPrefix(b, r, at, Packed(es[..i]));
    IndexRewritten(r, b, p, at, index, es[i]);
  }

  lemma OccursAfterOverwrite<T>(r: seq<T>, b: seq<T>, at: nat, q: nat, w: seq<T>, t: seq<T>)
    requires at + |w| <= |b| && q == at + |w| && r == Overwrite(b, at, w) && OccursAt(b, q, t)
    ensures OccursAt(r, q, t)
  {
    OverwriteOccurs(b, at, w);
    assert r[q..][..|t|] == b[q..][..|t|];
  }

  lemma ReplacedHolds(r: Buffer, p: nat, q: nat, front: seq<Entry>, f: Entry, back: seq<Entry>, es: seq<Entry>)
    requires AllStorable(front) && f.Storable() && AllStorable(back) && es == front + [f] + back
    requires p == |Packed(front)| && q == p + EntrySize(|f.key|)
    requires OccursAt(r, 0, Packed(front)) && OccursAt(r, p, EntryBytes(f)) && OccursAt(r, q, Packed(back) + EndMark())
    ensures r != [] && Holds(r, es)
  {
    var fronts := front + [f];
    PackedSnoc(front, f, fronts);
    OccursAtConcat(r, 0, Packed(front), EntryBytes(f));
    HoldsJoined(r, q, fronts, back, es);
  }
}
