/** The circular buffer of the bitstream splitter in exe_decoder/InputLoader.cpp. */
module SplitInput {
  import opened Basics
  import Bits

  type byte = bv8

  /** The bytes of a ring from `offset` on. */
  function Unread(buf: seq<byte>, offset: nat, avail: nat): (r: seq<byte>)
    requires offset < |buf| && avail <= |buf|
    ensures |r| == avail
  {
    if offset + avail <= |buf| then buf[offset..offset + avail] else buf[offset..] + buf[..offset + avail - |buf|]
  }

  /** Where the free space starts. */
  function UnusedOffset(size: nat, offset: nat, avail: nat): (r: nat)
    requires offset < size && avail <= size
    ensures r < size
  {
    (offset + avail) % size
  }

  lemma Wraps(i: nat, size: nat)
    requires size > 0 && i < 2 * size
    ensures i % size == if i < size then i else i - size
  {
  }

  function Put(buf: seq<byte>, pos: nat, data: seq<byte>): (r: seq<byte>)
    requires pos + |data| <= |buf|
    ensures |r| == |buf|
  {
    buf[..pos] + data + buf[pos + |data|..]
  }

  /** A buffer with `data` written at `pos` and, past its end, at its start. */
  function Written(buf: seq<byte>, pos: nat, data: seq<byte>): (r: seq<byte>)
    requires pos < |buf| && |data| <= |buf|
    ensures |r| == |buf|
  {
    if pos + |data| <= |buf| then buf[..pos] + data + buf[pos + |data|..]
    else var first := |buf| - pos;
         data[first..] + buf[|data| - first..pos] + data[..first]
  }

  /** Written behind the unread bytes, data that fits the free space becomes their continuation. */
  lemma WrittenIsAppended(buf: seq<byte>, offset: nat, avail: nat, data: seq<byte>)
    requires offset < |buf| && avail + |data| <= |buf|
    ensures Unread(Written(buf, UnusedOffset(|buf|, offset, avail), data), offset, avail + |data|)
         == Unread(buf, offset, avail) + data
  {
    hide Unread, Written;
    Wraps(offset + avail, |buf|);
    if offset + avail >= |buf| {
      WriteInFront(buf, offset, avail, data);
    } else if offset + avail + |data| <= |buf| {
      WriteBehind(buf, offset, avail, data);
    } else {
      SplitWrite(buf, offset, avail, data);
    }
  }

  lemma WriteBehind(buf: seq<byte>, offset: nat, avail: nat, data: seq<byte>)
    requires offset + avail < |buf| && offset + avail + |data| <= |buf|
    ensures Unread(Written(buf, offset + avail, data), offset, avail + |data|) == Unread(buf, offset, avail) + data
  {
    var w := Written(buf, offset + avail, data);
    assert w[offset..offset + avail + |data|] == buf[offset..offset + avail] + data;
  }

  lemma SplitWrite(buf: seq<byte>, offset: nat, avail: nat, data: seq<byte>)
    requires offset < |buf| && avail + |data| <= |buf| && offset + avail < |buf| < offset + avail + |data|
    ensures Unread(Written(buf, offset + avail, data), offset, avail + |data|) == Unread(buf, offset, avail) + data
  {
    var first := |buf| - (offset + avail);
    var w := Written(buf, offset + avail, data);
    WrittenEnds(buf, offset, avail, data, first);
    hide Written;
    assert w[offset..] + w[..|data| - first] == buf[offset..offset + avail] + (data[..first] + data[first..]);
    assert data == data[..first] + data[first..];
  }

  lemma WrittenEnds(buf: seq<byte>, offset: nat, avail: nat, data: seq<byte>, first: nat)
    requires offset + avail + first == |buf| && 0 < first < |data| && |data| - first <= offset
    ensures var w := Written(buf, offset + avail, data);
      w[offset..] == buf[offset..offset + avail] + data[..first] && w[..|data| - first] == data[first..]
  {
    var w := Written(buf, offset + avail, data);
    assert w == data[first..] + buf[|data| - first..offset + avail] + data[..first];
    assert buf[|data| - first..offset + avail] == buf[|data| - first..offset] + buf[offset..offset + avail];
  }

  lemma WriteInFront(buf: seq<byte>, offset: nat, avail: nat, data: seq<byte>)
    requires offset < |buf| && avail + |data| <= |buf| <= offset + avail
    ensures Unread(Written(buf, offset + avail - |buf|, data), offset, avail + |data|) == Unread(buf, offset,
          avail) + data
  {
    var pos := offset + avail - |buf|;
    var w := Written(buf, pos, data);
    WrittenFront(buf, offset, pos, data);
    hide Written;
    if offset + (avail + |data|) == |buf| {
      assert w[offset..] == buf[offset..] && buf[offset..] + data == buf[offset..];
    } else {
      assert w[offset..] + w[..pos + |data|] == buf[offset..] + buf[..pos] + data;
    }
  }

  lemma WrittenFront(buf: seq<byte>, offset: nat, pos: nat, data: seq<byte>)
    requires pos + |data| <= offset < |buf|
    ensures var w := Written(buf, pos, data);
      w[offset..] == buf[offset..] && w[..pos + |data|] == buf[..pos] + data
  {
    var w := Written(buf, pos, data);
    assert w == buf[..pos] + data + buf[pos + |data|..];
  }

  /** The unread bytes after the first `n` of them. */
  lemma UnreadAfter(buf: seq<byte>, offset: nat, avail: nat, n: nat)
    requires offset < |buf| && n <= avail <= |buf|
    ensures (offset + n) % |buf| < |buf|
    ensures Unread(buf, (offset + n) % |buf|, avail - n) == Unread(buf, offset, avail)[n..]
    ensures Unread(buf, offset, n) == Unread(buf, offset, avail)[..n]
  {
    Wraps(offset + n, |buf|);
    var next := if offset + n < |buf| then offset + n else offset + n - |buf|;
    assert (offset + n) % |buf| == next;
    UnreadSplit(buf, offset, avail, n, next);
  }

  lemma UnreadSplit(buf: seq<byte>, offset: nat, avail: nat, n: nat, next: nat)
    requires offset < |buf| && n <= avail <= |buf|
    requires next == if offset + n < |buf| then offset + n else offset + n - |buf|
    ensures next < |buf|
    ensures Unread(buf, next, avail - n) == Unread(buf, offset, avail)[n..]
    ensures Unread(buf, offset, n) == Unread(buf, offset, avail)[..n]
  {
    if offset + n >= |buf| {
      if avail == n {
      } else {
        assert Unread(buf, offset, avail) == buf[offset..] + buf[..offset + avail - |buf|];
      }
    }
  }

  // ---- The room check ----

  /** Writing any `n` bytes behind the unread ones leaves those as they are. */
  ghost predicate Spares(size: nat, offset: nat, avail: nat, n: nat)
    requires offset < size && avail <= size && n <= size
  {
    forall buf: seq<byte>, data: seq<byte> | |buf| == size && |data| == n ::
      Unread(Written(buf, UnusedOffset(size, offset, avail), data), offset, avail) == Unread(buf, offset, avail)
  }

  /** What passes the check of the program, on the offset of the free space, spares the unread bytes
      exactly when it fits the size of the free space. */
  lemma CheckSparesIff(size: nat, offset: nat, avail: nat, n: nat)
    requires offset < size && avail <= size && n <= UnusedOffset(size, offset, avail)
    ensures Spares(size, offset, avail, n) <==> n <= size - avail
  {
    if n <= size - avail {
      forall buf: seq<byte>, data: seq<byte> | |buf| == size && |data| == n
        ensures Unread(Written(buf, UnusedOffset(size, offset, avail), data), offset, avail)
             == Unread(buf, offset, avail)
      {
        FittingWriteSpares(buf, offset, avail, data);
      }
    } else {
      var buf, data := seq(size, _ => 0 as byte), seq(n, _ => 1 as byte);
      OldestIsOverwritten(buf, offset, avail, data);
      var after := Written(buf, UnusedOffset(size, offset, avail), data);
      hide Written, UnusedOffset;
      assert Unread(after, offset, avail)[0] == 1 && Unread(buf, offset, avail)[0] == 0;
      assert |buf| == size && |data| == n;
    }
  }

  lemma FittingWriteSpares(buf: seq<byte>, offset: nat, avail: nat, data: seq<byte>)
    requires offset < |buf| && avail + |data| <= |buf|
    ensures Unread(Written(buf, UnusedOffset(|buf|, offset, avail), data), offset, avail) == Unread(buf, offset, avail)
  {
    hide Unread, Written, UnusedOffset;
    WrittenIsAppended(buf, offset, avail, data);
    UnreadAfter(Written(buf, UnusedOffset(|buf|, offset, avail), data), offset, avail + |data|, avail);
  }

  /** What is too long replaces the oldest unread byte by the byte of its own that finds no room. */
  lemma OldestIsOverwritten(buf: seq<byte>, offset: nat, avail: nat, data: seq<byte>)
    requires offset < |buf| && |buf| - avail < |data| <= |buf| && 0 < avail <= |buf|
    ensures Written(buf, UnusedOffset(|buf|, offset, avail), data)[offset] == data[|buf| - avail]
  {
    Wraps(offset + avail, |buf|);
  }

  // ---- The end of the file ----

  /** The fields that decide whether the delimiter goes in. */
  datatype Fields = Fields(size: nat, offset: nat, avail: nat, eof: bool) {
    predicate Valid() { offset < size && avail <= size }
  }

  datatype Operation = Fill | Release(n: nat) | Copy(offset: nat, n: nat, capacity: nat)

  /** An operation once the file is read; `aud` is the length of the delimiter. */
  function AtEnd(f: Fields, aud: nat, op: Operation): Fields
    requires f.Valid()
  {
    match op
    case Fill =>
      if !f.eof && f.avail < f.size && aud <= UnusedOffset(f.size, f.offset, f.avail)
      then f.(avail := f.avail + aud, eof := true) else f
    case Release(n) => if n <= f.avail then Released(f, n) else f
    case Copy(offset, n, capacity) =>
      if n <= capacity && offset + n <= f.avail then Released(Released(f, offset), n) else f
  }

  function Released(f: Fields, n: nat): (f': Fields)
    requires f.Valid() && n <= f.avail
    ensures f'.Valid() && f'.avail == f.avail - n
  {
    f.(offset := (f.offset + n) % f.size, avail := f.avail - n)
  }

  /** The fields after some operations; it stops where the delimiter overwrites unread bytes. */
  function AllAtEnd(f: Fields, aud: nat, ops: seq<Operation>): Fields
    requires f.Valid()
    decreases |ops|
  {
    if ops == [] then f
    else var f' := AtEnd(f, aud, ops[0]); if f'.Valid() then AllAtEnd(f', aud, ops[1..]) else f'
  }

  predicate Stalled(f: Fields, aud: nat)
    requires f.Valid()
  {
    !f.eof && UnusedOffset(f.size, f.offset, f.avail) < aud
  }

  /** Taking bytes out does not move the free space's start. */
  lemma ReleaseKeepsUnusedOffset(f: Fields, n: nat)
    requires f.Valid() && n <= f.avail
    ensures UnusedOffset(f.size, Released(f, n).offset, f.avail - n) == UnusedOffset(f.size, f.offset, f.avail)
  {
    Wraps(f.offset + n, f.size);
    Wraps(f.offset + f.avail, f.size);
    Wraps(Released(f, n).offset + f.avail - n, f.size);
  }

  lemma StalledStays(f: Fields, aud: nat, op: Operation)
    requires f.Valid() && Stalled(f, aud)
    ensures AtEnd(f, aud, op).Valid() && Stalled(AtEnd(f, aud, op), aud)
  {
    hide UnusedOffset;
    match op
    case Fill =>
    case Release(n) => if n <= f.avail { ReleaseKeepsUnusedOffset(f, n); }
    case Copy(offset, n, capacity) =>
      if n <= capacity && offset + n <= f.avail {
        ReleaseKeepsUnusedOffset(f, offset);
        ReleaseKeepsUnusedOffset(Released(f, offset), n);
      }
  }

  lemma {:induction false} NeverEnds(f: Fields, aud: nat, ops: seq<Operation>)
    requires f.Valid() && Stalled(f, aud)
    ensures !AllAtEnd(f, aud, ops).eof
    decreases |ops|
  {
    hide UnusedOffset, AtEnd;
    if ops != [] {
      StalledStays(f, aud, ops[0]);
      NeverEnds(AtEnd(f, aud, ops[0]), aud, ops[1..]);
    }
  }

  /** With the file read, no operations whatever lead to the end of the stream exactly when the free space
      starts below the length of the delimiter. */
  lemma NeverEndsIff(f: Fields, aud: nat)
    requires f.Valid()
    ensures (forall ops: seq<Operation> :: !AllAtEnd(f, aud, ops).eof) <==> Stalled(f, aud)
  {
    if Stalled(f, aud) {
      forall ops: seq<Operation> ensures !AllAtEnd(f, aud, ops).eof { NeverEnds(f, aud, ops); }
    } else if f.eof {
      assert AllAtEnd(f, aud, []).eof;
    } else if f.avail < f.size {
      EndsByFill(f, aud);
    } else {
      var f', ops := AtEnd(f, aud, Release(1)), [Release(1), Fill];
      ReleaseKeepsUnusedOffset(f, 1);
      EndsByFill(f', aud);
      assert ops[0] == Release(1) && ops[1..] == [Fill];
      assert AllAtEnd(f, aud, ops) == AllAtEnd(f', aud, [Fill]);
    }
  }

  lemma EndsByFill(f: Fields, aud: nat)
    requires f.Valid() && !f.eof && f.avail < f.size && aud <= UnusedOffset(f.size, f.offset, f.avail)
    ensures AllAtEnd(f, aud, [Fill]).eof
  {
    var f' := AtEnd(f, aud, Fill);
    assert f'.Valid() ==> AllAtEnd(f', aud, []) == f';
  }

  /** The free space starts where the bytes stored so far end, modulo the size of the ring. */
  lemma StoredModulo(size: nat, offset: nat, avail: nat, n: nat, taken: nat)
    requires offset < size && avail + n <= size && UnusedOffset(size, offset, avail) == taken % size
    ensures UnusedOffset(size, offset, avail + n) == (taken + n) % size
  {
    var q := taken / size;
    Wraps(offset + avail, size);
    Wraps(offset + avail + n, size);
    assert taken + n == q * size + taken % size + n;
    Remainder(taken % size + n, size, q);
    Wraps(taken % size + n, size);
  }

  lemma Remainder(a: nat, size: nat, q: nat)
    requires size > 0
    ensures (q * size + a) % size == a % size
  {
    var k := a / size;
    assert q * size + a == size * (q + k) + a % size;
    Bits.ModUnique(q * size + a, size, q + k, a % size);
  }

  // ---- What the decoder gets ----

  /** The bytes that are marked. */
  function Marked(bytes: seq<byte>, marks: seq<bool>): (r: seq<byte>)
    requires |bytes| == |marks|
    ensures |r| <= |bytes|
  {
    if bytes == [] then []
    else
      var n := |bytes| - 1;
      Marked(bytes[..n], marks[..n]) + if marks[n] then [bytes[n]] else []
  }

  function Marks(n: nat, mark: bool): seq<bool> { seq(n, _ => mark) }

  lemma {:induction false} MarkMore(bytes: seq<byte>, marks: seq<bool>, more: seq<byte>, mark: bool)
    requires |bytes| == |marks|
    ensures Marked(bytes + more, marks + Marks(|more|, mark)) == Marked(bytes, marks) + if mark then more else []
    decreases |more|
  {
    if more == [] {
      assert bytes + more == bytes && marks + Marks(0, mark) == marks;
      assert Marked(bytes, marks) + [] == Marked(bytes, marks);
    } else {
      var n := |more| - 1;
      var allBytes, allMarks := bytes + more, marks + Marks(|more|, mark);
      assert allBytes[..|allBytes| - 1] == bytes + more[..n];
      assert allMarks[..|allMarks| - 1] == marks + Marks(n, mark);
      MarkMore(bytes, marks, more[..n], mark);
      if mark {
        assert more == more[..n] + [more[n]];
        Associates(Marked(bytes, marks), more[..n], [more[n]]);
      }
    }
  }

  /** All bytes are marked exactly when no mark is missing. */
  lemma {:induction false} AllMarkedIff(bytes: seq<byte>, marks: seq<bool>)
    requires |bytes| == |marks|
    ensures Marked(bytes, marks) == bytes <==> false !in marks
  {
    if bytes != [] {
      var n := |bytes| - 1;
      AllMarkedIff(bytes[..n], marks[..n]);
      assert bytes == bytes[..n] + [bytes[n]] && marks == marks[..n] + [marks[n]];
      if !marks[n] {
        assert |Marked(bytes, marks)| <= n;
      }
    }
  }

  datatype Copied = Data(bytes: seq<byte>) | FrameTooLarge | InvalidFrame

  /** `taken` is what has been read from the file, `consumed` what has left the ring, and `handed` marks which of
      that went to the decoder: the rest was skipped in front of a frame. */
  class SplitInput {
    const pBuf: array<byte>
    const aud: seq<byte>       // end-of-stream access unit delimiter of the codec
    var iOffset: nat
    var iAvailSize: nat
    var bEOF: bool
    ghost var taken: seq<byte>
    ghost var consumed: seq<byte>
    ghost var handed: seq<bool>

    ghost predicate Ring()
      reads this, pBuf
    {
      iOffset < pBuf.Length && iAvailSize <= pBuf.Length
    }

    ghost function Contents(): seq<byte>
      requires Ring()
      reads this, pBuf
    {
      Unread(pBuf[..], iOffset, iAvailSize)
    }

    /** Nothing is lost, repeated or reordered between the file and the decoder. */
    ghost predicate Valid()
      reads this, pBuf
    {
      && Ring() && consumed + Contents() == taken + (if bEOF then aud else []) && |handed| == |consumed|
      && (bEOF || UnusedOffset(pBuf.Length, iOffset, iAvailSize) == |taken| % pBuf.Length)
    }

    /** What the decoder has received. */
    ghost function Delivered(): seq<byte>
      requires |handed| == |consumed|
      reads this
    {
      Marked(consumed, handed)
    }

    ghost function State(): Fields
      reads this
    {
      Fields(pBuf.Length, iOffset, iAvailSize, bEOF)
    }

    /** A ring twice as large as one buffer. */
    constructor (iSize: nat, aud: seq<byte>)
      requires iSize > 0
      ensures Valid() && Contents() == [] && consumed == taken == Delivered() == [] && this.aud == aud
      ensures fresh(pBuf) && State() == Fields(2 * iSize, 0, 0, false)
    {
      var numBuf := 2;
      pBuf := new byte[iSize * numBuf](_ => 0);
      this.aud, iOffset, iAvailSize, bEOF := aud, 0, 0, false;
      taken, consumed, handed := [], [], [];
    }

    /** Copies bytes into the buffer without wrapping. */
    method Store(pos: nat, data: seq<byte>)
      requires pos + |data| <= pBuf.Length
      modifies pBuf
      ensures pBuf[..] == Put(old(pBuf[..]), pos, data)
    {
      for k := 0 to |data|
        invariant pBuf[..pos] == old(pBuf[..pos]) && pBuf[pos + |data|..] == old(pBuf[pos + |data|..])
        invariant pBuf[pos..pos + k] == data[..k]
      {
        pBuf[pos + k] := data[k];
      }
      assert pBuf[..] == pBuf[..pos] + pBuf[pos..pos + |data|] + pBuf[pos + |data|..];
      assert old(pBuf[..pos]) == old(pBuf[..])[..pos] && old(pBuf[pos + |data|..]) == old(pBuf[..])[pos + |data|..];
    }

    /** The reads of RefillCircularBuffer: up to the end of the buffer, then from its start. */
    method ReadInto(file: seq<byte>, unusedOffset: nat, unusedSize: nat) returns (refilledSize: nat)
      requires unusedOffset < pBuf.Length && unusedSize <= pBuf.Length
      modifies pBuf
      ensures refilledSize == Min(|file|, unusedSize)
      ensures pBuf[..] == Written(old(pBuf[..]), unusedOffset, file[..refilledSize])
    {
      hide Written, Put;
      refilledSize := 0;
      if unusedOffset + unusedSize > pBuf.Length {
        ghost var before := pBuf[..];
        var first := Min(|file|, pBuf.Length - unusedOffset);
        Store(unusedOffset, file[..first]);
        var second := Min(|file| - first, unusedSize - first);
        Slices(file, first, second);
        Store(0, file[first..first + second]);
        refilledSize := first + second;
        TwoStores(before, unusedOffset, file[..refilledSize], first);
      } else {
        refilledSize := Min(|file|, unusedSize);
        OneStore(pBuf[..], unusedOffset, file[..refilledSize]);
        Store(unusedOffset, file[..refilledSize]);
      }
    }

    /** Reads as much of the file as there is room for. */
    method RefillCircularBuffer(file: seq<byte>) returns (endOfFileReached: bool, rest: seq<byte>)
      requires Valid() && !bEOF
      modifies this`iAvailSize, this`taken, pBuf
      ensures Valid()
      ensures var n := Min(|file|, pBuf.Length - old(iAvailSize));
        rest == file[n..] && taken == old(taken) + file[..n] && Contents() == old(Contents()) + file[..n]
        && iAvailSize == old(iAvailSize) + n && endOfFileReached == (n < pBuf.Length - old(iAvailSize))
        && pBuf[..] == Written(old(pBuf[..]), UnusedOffset(pBuf.Length, iOffset, old(iAvailSize)), file[..n])
    {
      hide Unread, Written, UnusedOffset;
      var unusedSize := pBuf.Length - iAvailSize;
      ghost var before, unread := pBuf[..], Contents();
      var n := ReadInto(file, UnusedOffset(pBuf.Length, iOffset, iAvailSize), unusedSize);
      WrittenIsAppended(before, iOffset, iAvailSize, file[..n]);
      iAvailSize := iAvailSize + n;
      Associates(consumed, unread, file[..n]);
      StoredModulo(pBuf.Length, iOffset, iAvailSize - n, n, |taken|);
      taken := taken + file[..n];
      rest := file[n..];
      endOfFileReached := n < unusedSize;
    }

    /** The delimiter is written when the offset of the free space is large enough: the program looks
        at the offset where it means the size. It continues the unread bytes when it fits the size. */
    method InsertEndOfStreamAud() returns (inserted: bool)
      requires Ring()
      modifies this`iAvailSize, pBuf
      ensures inserted == (|aud| <= UnusedOffset(pBuf.Length, iOffset, old(iAvailSize)))
      ensures iAvailSize == old(iAvailSize) + if inserted then |aud| else 0
      ensures inserted ==> pBuf[..] == Written(old(pBuf[..]), UnusedOffset(pBuf.Length, iOffset, old(iAvailSize)), aud)
      ensures !inserted ==> pBuf[..] == old(pBuf[..])
      ensures inserted && |aud| <= pBuf.Length - old(iAvailSize) ==> Ring() && Contents() == old(Contents()) + aud
    {
      hide Unread, Written, UnusedOffset;
      if aud == [] {
        WriteNothing(pBuf[..], UnusedOffset(pBuf.Length, iOffset, iAvailSize));
        assert Contents() + [] == Contents();
        return true;
      }
      var unusedOffset := UnusedOffset(pBuf.Length, iOffset, iAvailSize);
      var unusedSize := UnusedOffset(pBuf.Length, iOffset, iAvailSize);
      if |aud| > unusedSize {
        return false;
      }
      ghost var before := pBuf[..];
      CopyAud(unusedOffset);
      if |aud| <= pBuf.Length - iAvailSize {
        WrittenIsAppended(before, iOffset, iAvailSize, aud);
      }
      iAvailSize := iAvailSize + |aud|;
      inserted := true;
    }

    /** The copies of InsertEndOfStreamAud. */
    method CopyAud(unusedOffset: nat)
      requires |aud| <= unusedOffset < pBuf.Length
      modifies pBuf
      ensures pBuf[..] == Written(old(pBuf[..]), unusedOffset, aud)
    {
      hide Written, Put;
      ghost var before := pBuf[..];
      if unusedOffset + |aud| > pBuf.Length {
        var firstChunkSize := pBuf.Length - unusedOffset;
        Store(unusedOffset, aud[..firstChunkSize]);
        Store(0, aud[firstChunkSize..]);
        TwoStores(before, unusedOffset, aud, firstChunkSize);
      } else {
        Store(unusedOffset, aud);
        OneStore(before, unusedOffset, aud);
      }
    }

    /** The delimiter that follows a file of this length spares the bytes not read yet. */
    ghost predicate AudFits(length: nat)
      requires Ring()
      reads this, pBuf
    {
      iAvailSize + length < pBuf.Length && |aud| <= UnusedOffset(pBuf.Length, iOffset, iAvailSize + length)
      ==> |aud| <= pBuf.Length - (iAvailSize + length)
    }

    /** One pass of ReadStream up to the search for start codes. The end is reached exactly when the whole
        file is read, room is left, and what has been read is long enough modulo the size of the ring. */
    method Fill(file: seq<byte>) returns (rest: seq<byte>)
      requires Valid()
      modifies this`iAvailSize, this`taken, this`bEOF, pBuf
      ensures Valid() <==> old(bEOF) || old(AudFits(|file|))
      ensures old(bEOF) ==> bEOF && rest == file && taken == old(taken) && iAvailSize == old(iAvailSize)
                            && Contents() == old(Contents())
      ensures var n := Min(|file|, pBuf.Length - old(iAvailSize));
        !old(bEOF) ==>
          && rest == file[n..] && taken == old(taken) + file[..n]
          && (bEOF <==> old(iAvailSize) + |file| < pBuf.Length && |aud| <= |taken| % pBuf.Length)
          && iAvailSize == old(iAvailSize) + n + (if bEOF then |aud| else 0)
          && (Ring() ==> Contents() == old(Contents()) + file[..n] + if bEOF then aud else [])
      ensures bEOF && !old(bEOF) ==>
        && |aud| <= UnusedOffset(pBuf.Length, iOffset, old(iAvailSize) + |file|)
        && pBuf[..] == Written(Written(old(pBuf[..]), UnusedOffset(pBuf.Length, iOffset, old(iAvailSize)), file),
                               UnusedOffset(pBuf.Length, iOffset, old(iAvailSize) + |file|), aud)
      ensures file == [] ==> State() == AtEnd(old(State()), |aud|, Operation.Fill)
    {
      hide Unread, Written, UnusedOffset;
      rest := file;
      if !bEOF {
        var endOfFileReached;
        endOfFileReached, rest := RefillCircularBuffer(file);
        ghost var unread := Contents();
        if endOfFileReached {
          assert rest == [] && file[..|file|] == file;
          var inserted := InsertEndOfStreamAud();
          if inserted {
            bEOF := true;
            Associates(consumed, unread, aud);
          } else {
            assert unread + [] == unread;
          }
        } else {
          assert unread + [] == unread;
        }
      }
    }

    /** `toDecoder` says whether the bytes have been copied to the decoder's buffer before. */
    method ReleaseCircularBuffer(iNumBytes: nat, ghost toDecoder: bool)
      requires Valid() && iNumBytes <= iAvailSize
      modifies this`iOffset, this`iAvailSize, this`consumed, this`handed
      ensures Valid() && Contents() == old(Contents())[iNumBytes..]
      ensures consumed == old(consumed) + old(Contents())[..iNumBytes]
      ensures handed == old(handed) + Marks(iNumBytes, toDecoder)
      ensures Delivered() == old(Delivered()) + if toDecoder then old(Contents())[..iNumBytes] else []
      ensures State() == AtEnd(old(State()), |aud|, Release(iNumBytes)) == Released(old(State()), iNumBytes)
    {
      hide Unread, UnusedOffset, Marked;
      ReleaseKeepsUnusedOffset(State(), iNumBytes);
      UnreadAfter(pBuf[..], iOffset, iAvailSize, iNumBytes);
      ghost var all := Contents();
      assert all == all[..iNumBytes] + all[iNumBytes..];
      MarkMore(consumed, handed, all[..iNumBytes], toDecoder);
      Associates(consumed, all[..iNumBytes], all[iNumBytes..]);
      consumed := consumed + all[..iNumBytes];
      handed := handed + Marks(iNumBytes, toDecoder);
      iOffset := (iOffset + iNumBytes) % pBuf.Length;
      iAvailSize := iAvailSize - iNumBytes;
    }

    /** Hands the bytes of a frame to the decoder, in a buffer of the given size; those in front are skipped. */
    method CopyFromCircularToHardwareBuffer(offset: nat, numBytes: nat, size: nat) returns (r: Copied)
      requires Valid()
      modifies this`iOffset, this`iAvailSize, this`consumed, this`handed
      ensures Valid()
      ensures r.FrameTooLarge? <==> numBytes > size
      ensures r.InvalidFrame? <==> numBytes <= size && offset + numBytes > old(iAvailSize)
      ensures !r.Data? ==> consumed == old(consumed) && handed == old(handed) && Contents() == old(Contents())
      ensures r.Data? ==> r.bytes == old(Contents())[offset..offset + numBytes]
                          && Contents() == old(Contents())[offset + numBytes..]
                          && handed == old(handed) + Marks(offset, false) + Marks(numBytes, true)
                          && Delivered() == old(Delivered()) + r.bytes
      ensures State() == AtEnd(old(State()), |aud|, Copy(offset, numBytes, size))
    {
      hide Unread, UnusedOffset, Marked, Marks;
      if numBytes > size {
        return FrameTooLarge;
      }
      if offset + numBytes > iAvailSize {
        return InvalidFrame;
      }
      ghost var all := Contents();
      ReleaseCircularBuffer(offset, false);
      assert Delivered() == old(Delivered());
      var bytes := CopyFrame(numBytes);
      ReleaseCircularBuffer(numBytes, true);
      assert all[offset..][..numBytes] == all[offset..offset + numBytes];
      assert all[offset..][numBytes..] == all[offset + numBytes..];
      r := Data(bytes);
    }

    method CopyFrame(numBytes: nat) returns (bytes: seq<byte>)
      requires Ring() && numBytes <= iAvailSize
      ensures bytes == Contents()[..numBytes]
    {
      hide Unread;
      if iOffset + numBytes > pBuf.Length {
        var firstPart := pBuf.Length - iOffset;
        bytes := pBuf[iOffset..] + pBuf[..numBytes - firstPart];
      } else {
        bytes := pBuf[iOffset..iOffset + numBytes];
      }
      CopiedIsUnread(pBuf[..], iOffset, numBytes);
      UnreadAfter(pBuf[..], iOffset, iAvailSize, numBytes);
    }

    /** When ReadStream reports the end only the delimiter is left: everything read has left the ring, and the
        decoder has received all of it exactly when no byte was skipped in front of a frame. */
    lemma EndMeansEverythingConsumed()
      requires Valid() && bEOF && iAvailSize == |aud|
      ensures consumed == taken && Contents() == aud
      ensures Delivered() == taken <==> false !in handed
    {
      hide Unread, Marked;
      var all := taken + aud;
      assert |consumed| == |taken|;
      assert all[..|taken|] == taken && all[..|consumed|] == consumed;
      assert all[|taken|..] == aud && all[|consumed|..] == Contents();
      AllMarkedIff(consumed, handed);
    }
  }

  const AVC_AUD: seq<byte> := [0, 0, 1, 0x09, 0x80]

  /** A file of eight bytes in a ring of ten: the delimiter passes the check and replaces the first three
      bytes of the file, which nobody has read yet. */
  method OverwritesUnread(file: seq<byte>) returns (s: SplitInput)
    requires |file| == 8
    ensures s.State() == Fields(10, 0, 13, true) && s.taken == file && s.consumed == []
    ensures s.pBuf[..10] == [1, 0x09, 0x80] + file[3..] + [0, 0]
  {
    s := new SplitInput(5, AVC_AUD);
    ghost var empty := s.pBuf[..];
    var rest := s.Fill(file);
    DelimiterOverFile(empty, file);
    assert file[..8] == file;
  }

  lemma SmallFile(iSize: nat, file: seq<byte>)
    requires |file| < |AVC_AUD| <= iSize
    ensures UnusedOffset(2 * iSize, 0, 0) == 0 && UnusedOffset(2 * iSize, 0, |file|) == |file|
    ensures |file| % (2 * iSize) == |file| && file[..|file|] == file && [] + file == file && file + [] == file
  {
    Wraps(|file|, 2 * iSize);
    Wraps(0, 2 * iSize);
  }

  /** A file shorter than the delimiter never leads to the end of the stream, whatever follows. */
  method ShortFileNeverEnds(iSize: nat, file: seq<byte>) returns (s: SplitInput)
    requires iSize >= |AVC_AUD| > |file|
    ensures fresh(s) && s.Valid() && s.Contents() == s.taken == file && !s.bEOF
    ensures forall ops: seq<Operation> :: !AllAtEnd(s.State(), |AVC_AUD|, ops).eof
  {
    hide Unread, Written, UnusedOffset, AtEnd, AllAtEnd, Marked;
    s := new SplitInput(iSize, AVC_AUD);
    SmallFile(iSize, file);
    var rest := s.Fill(file);
    NeverEndsIff(s.State(), |AVC_AUD|);
  }

  lemma DelimiterOverFile(buf: seq<byte>, file: seq<byte>)
    requires |buf| == 10 && |file| == 8
    ensures Written(Written(buf, 0, file), 8, AVC_AUD) == [1, 0x09, 0x80] + file[3..] + [0, 0]
  {
    assert Written(buf, 0, file) == file + buf[8..];
    assert AVC_AUD[2..] == [1, 0x09, 0x80] && AVC_AUD[..2] == [0, 0];
    assert (file + buf[8..])[3..8] == file[3..];
  }

  lemma Slices(file: seq<byte>, first: nat, second: nat)
    requires first + second <= |file|
    ensures file[..first + second][..first] == file[..first]
    ensures file[..first + second][first..] == file[first..first + second]
    ensures |file[..first + second]| == first + second
  {
  }

  lemma CopiedIsUnread(buf: seq<byte>, offset: nat, n: nat)
    requires offset < |buf| && n <= |buf|
    ensures offset + n > |buf| ==> buf[offset..] + buf[..n - (|buf| - offset)] == Unread(buf, offset, n)
    ensures offset + n <= |buf| ==> buf[offset..offset + n] == Unread(buf, offset, n)
  {
  }

  lemma OneStore(before: seq<byte>, pos: nat, data: seq<byte>)
    requires pos < |before| && pos + |data| <= |before|
    ensures Put(before, pos, data) == Written(before, pos, data)
  {
  }

  lemma WriteNothing(buf: seq<byte>, pos: nat)
    requires pos < |buf|
    ensures Written(buf, pos, []) == buf
  {
  }

  /** Two stores, the second at the start of the buffer. */
  lemma TwoStores(before: seq<byte>, pos: nat, data: seq<byte>, first: nat)
    requires pos < |before| && first <= |data| && |data| - first <= pos
    requires first == Min(|data|, |before| - pos)
    ensures Put(Put(before, pos, data[..first]), 0, data[first..]) == Written(before, pos, data)
  {
    var once := before[..pos] + data[..first] + before[pos + first..];
    var second := |data| - first;
    if second > 0 {
      assert before[pos + first..] == [];
      assert once[second..] == before[second..pos] + data[..first];
    } else {
      assert data[..first] == data && data[first..] == [] && once[0..] == once;
    }
  }
}
