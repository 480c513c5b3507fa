/**
 `net/buffer.cpp`: a byte queue in a wrapped array that grows on demand.

 `expand_if_needed` resets the read position before it measures how much is
 readable. The class is built for either order of these two steps, so that the
 code as written and the order used by `shrink_to_fit` can be compared.
 */
module RingBuffers {

  import opened Bits
  import opened Wrappers

  /** Which of its two last steps `expand_if_needed` takes first. */
  datatype Growth = ResetThenMeasure | MeasureThenReset

  /** A contiguous stretch of the array, for reading or writing in place. */
  datatype Area = Area(start: nat, len: nat)

  function Readable(cap: nat, r: nat, w: nat): nat
    requires r < cap && w < cap
  {
    if w >= r then w - r else cap - (r - w)
  }

  /** The bytes in the queue, oldest first. */
  function ContentOf(cells: string, r: nat, w: nat): (s: string)
    requires r < |cells| && w < |cells|
    ensures |s| == Readable(|cells|, r, w)
  {
    if w >= r then cells[r..w] else cells[r..] + cells[..w]
  }

  function Zeros(n: nat): (s: string)
    ensures |s| == n
  {
    seq(n, _ => '\0')
  }

  /** The capacity doubles until `len` more bytes fit beside `readable` and the reserved slot. */
  function GrownCapacity(cap: nat, readable: nat, len: nat): (c: nat)
    requires readable < cap
    ensures c >= cap && c - readable - 1 >= len
    decreases readable + 1 + len - cap
  {
    if cap - readable - 1 >= len then cap else GrownCapacity(cap * 2, readable, len)
  }

  /** Room for twice the content, and never less than 1024 cells. */
  function ShrunkCapacity(readable: nat): nat {
    if readable * 2 < 1024 then 1024 else readable * 2
  }

  /** What the queue holds after a growth to `newCap` cells that leaves the write position at `w`. */
  function AfterGrowth(content: string, newCap: nat, w: nat): string
    requires |content| <= newCap && w <= newCap
  {
    (content + Zeros(newCap - |content|))[..w]
  }

  /**
   Growth as written leaves the write position where it was. That keeps the content if and only if
   the read position was 0; otherwise the queue gains the skipped zeros or loses its wrapped part.
   */
  lemma GrowthKeepsContent(cells: string, r: nat, w: nat, newCap: nat)
    requires r < |cells| <= newCap && w < |cells|
    ensures AfterGrowth(ContentOf(cells, r, w), newCap, w) == ContentOf(cells, r, w) <==> r == 0
    ensures AfterGrowth(ContentOf(cells, r, w), newCap, Readable(|cells|, r, w)) == ContentOf(cells, r, w)
  {
    var content := ContentOf(cells, r, w);
    assert |AfterGrowth(content, newCap, w)| == w;
    assert (content + Zeros(newCap - |content|))[..|content|] == content;
  }

  /** Position `i` of the queue in the array. */
  function Slot(cap: nat, r: nat, i: nat): nat
    requires r < cap && i < cap
  {
    if r + i < cap then r + i else r + i - cap
  }

  lemma SlotIsModulo(cap: nat, r: nat, i: nat)
    requires r < cap && i < cap
    ensures (r + i) % cap == Slot(cap, r, i)
  {
    if r + i >= cap {
      ModuloOnce(r + i - cap, cap);
    }
  }

  lemma ModuloOnce(x: nat, cap: nat)
    requires x < cap
    ensures (x + cap) % cap == x
  {
    var q, m := (x + cap) / cap, (x + cap) % cap;
    assert x + cap == cap * q + m;
    assert q >= 2 ==> cap * q >= cap * 2;
  }

  lemma ContentAt(cells: string, r: nat, w: nat, i: nat)
    requires r < |cells| && w < |cells| && i < Readable(|cells|, r, w)
    ensures ContentOf(cells, r, w)[i] == cells[Slot(|cells|, r, i)]
  {}

  lemma CellAt(cells: string, r: nat, w: nat, i: nat)
    requires r < |cells| && w < |cells| && i < Readable(|cells|, r, w)
    ensures 0 <= (r + i) % |cells| < |cells| && ContentOf(cells, r, w)[i] == cells[(r + i) % |cells|]
  {
    SlotIsModulo(|cells|, r, i);
    ContentAt(cells, r, w, i);
  }

  /** The queue after its read position moved `n` bytes on. */
  lemma FrontOf(cells: string, r: nat, w: nat, n: nat)
    requires r < |cells| && w < |cells| && n <= Readable(|cells|, r, w)
    ensures ContentOf(cells, r, w)[..n]
            == if n <= |cells| - r then cells[r..r + n] else cells[r..] + cells[..n - (|cells| - r)]
  {}

  lemma ContentAdvance(cells: string, r: nat, w: nat, n: nat)
    requires r < |cells| && w < |cells| && n <= Readable(|cells|, r, w)
    ensures ContentOf(cells, Slot(|cells|, r, n), w) == ContentOf(cells, r, w)[n..]
  {}

  /** The queue after its write position moved over `data`, whatever the other free cells hold. */
  lemma ContentExtend(before: string, after: string, r: nat, w: nat, data: string)
    requires |before| == |after| && r < |before| && w < |before|
    requires |data| < |before| - Readable(|before|, r, w)
    requires forall i :: 0 <= i < Readable(|before|, r, w) ==>
               after[Slot(|before|, r, i)] == before[Slot(|before|, r, i)]
    requires forall i :: 0 <= i < |data| ==> after[Slot(|before|, w, i)] == data[i]
    ensures ContentOf(after, r, Slot(|before|, w, |data|)) == ContentOf(before, r, w) + data
  {
    var n := Readable(|before|, r, w);
    var w' := Slot(|before|, w, |data|);
    assert Readable(|before|, r, w') == n + |data|;
    forall i | 0 <= i < n + |data|
      ensures ContentOf(after, r, w')[i] == (ContentOf(before, r, w) + data)[i]
    {
      ContentAt(after, r, w', i);
      if i < n {
        ContentAt(before, r, w, i);
      } else {
        assert Slot(|before|, r, i) == Slot(|before|, w, i - n);
      }
    }
  }

  // ------------------------------------------------------------------ searching

  predicate MatchesAt(s: string, pattern: string, i: nat) {
    i + |pattern| <= |s| && s[i..i + |pattern|] == pattern
  }

  lemma Mismatch(s: string, pattern: string, i: nat, j: nat)
    requires i + |pattern| <= |s| && j < |pattern| && s[i + j] != pattern[j]
    ensures !MatchesAt(s, pattern, i)
  {
    assert s[i..i + |pattern|][j] == s[i + j];
  }

  /** `found` is the least offset of `pattern` in `s`, or None if there is none. */
  ghost predicate IsLeastMatch(s: string, pattern: string, found: Option<nat>) {
    match found
    case None => forall i :: 0 <= i <= |s| ==> !MatchesAt(s, pattern, i)
    case Some(k) => MatchesAt(s, pattern, k) && forall i :: 0 <= i < k ==> !MatchesAt(s, pattern, i)
  }

  ghost predicate IsFirstChar(s: string, c: char, found: Option<nat>) {
    match found
    case None => c !in s
    case Some(k) => k < |s| && s[k] == c && c !in s[..k]
  }

  function Spliced(cells: string, at: nat, src: string): (r: string)
    requires at + |src| <= |cells|
    ensures |r| == |cells|
  {
    cells[..at] + src + cells[at + |src|..]
  }

  lemma SplicedInOrder(n: nat, one: string, two: string)
    requires |one| + |two| <= n
    ensures Spliced(Spliced(Zeros(n), 0, one), |one|, two) == one + two + Zeros(n - |one| - |two|)
  {
    assert Spliced(Zeros(n), 0, one) == one + Zeros(n - |one|);
  }

  lemma SplicedWrapped(cells: string, w: nat, one: string, two: string)
    requires w + |one| <= |cells| && |two| <= w
    ensures Spliced(Spliced(cells, w, one), 0, two) == Placed(cells, w, one, two)
  {}

  /** `std::memcpy` to the cells from `at` on. */
  method Copy(dst: array<char>, at: nat, src: string)
    requires at + |src| <= dst.Length
    modifies dst
    ensures dst[..] == Spliced(old(dst[..]), at, src)
  {
    forall i | 0 <= i < |src| {
      dst[at + i] := src[i];
    }
  }

  /** The array after `one` is copied to the write position and `two`, if any, to its beginning. */
  function Placed(cells: string, w: nat, one: string, two: string): (r: string)
    requires w + |one| <= |cells| && |two| <= w
    ensures |r| == |cells|
  {
    two + cells[|two|..w] + one + cells[w + |one|..]
  }

  lemma ContentPlaced(cells: string, r: nat, w: nat, one: string, two: string)
    requires r < |cells| && w < |cells| && w + |one| <= |cells|
    requires two != "" ==> w + |one| == |cells|
    requires |one| + |two| < |cells| - Readable(|cells|, r, w)
    ensures |two| <= w
    ensures ContentOf(Placed(cells, w, one, two), r, Slot(|cells|, w, |one + two|))
            == ContentOf(cells, r, w) + (one + two)
  {
    ContentExtend(cells, Placed(cells, w, one, two), r, w, one + two);
  }

  class RingBuffer {
    const growth: Growth
    var buffer: array<char>
    var readPos: nat
    var writePos: nat

    ghost predicate Valid()
      reads this
    {
      buffer.Length >= 4 && readPos < buffer.Length && writePos < buffer.Length
    }

    function ReadableBytes(): nat
      reads this
      requires Valid()
    {
      Readable(buffer.Length, readPos, writePos)
    }

    /** One cell stays free, so that a full queue differs from an empty one. */
    function WritableBytes(): nat
      reads this
      requires Valid()
    {
      buffer.Length - ReadableBytes() - 1
    }

    ghost function Content(): string
      reads this, buffer
      requires Valid()
    {
      ContentOf(buffer[..], readPos, writePos)
    }

    constructor (growth: Growth, initialCapacity: nat)
      requires initialCapacity > 0
      ensures Valid() && fresh(buffer) && this.growth == growth
      ensures Content() == "" && readPos == 0 && writePos == 0
      ensures buffer.Length == if initialCapacity < 4 then 4 else initialCapacity
    {
      this.growth := growth;
      buffer := new char[if initialCapacity < 4 then 4 else initialCapacity](_ => '\0');
      readPos, writePos := 0, 0;
    }

    /** The two stretches holding the queue; they concatenate to its content. */
    method ReadableAreas() returns (first: Area, second: Area)
      requires Valid()
      ensures first.start + first.len <= buffer.Length && second.start + second.len <= buffer.Length
      ensures buffer[first.start..first.start + first.len] + buffer[second.start..second.start + second.len]
              == Content()
    {
      first, second := Area(0, 0), Area(0, 0);
      if ReadableBytes() == 0 { return; }
      if writePos > readPos {
        first := Area(readPos, writePos - readPos);
      } else {
        first := Area(readPos, buffer.Length - readPos);
        if writePos > 0 {
          second := Area(0, writePos);
        }
      }
    }

    /**
     The free stretches, in the order in which they are to be filled: from the write position on,
     then from the start of the array. They never touch the content. Together they offer what can
     be written, and one byte more exactly when the queue starts past cell 0 and is not wrapped.
     */
    method WritableAreas() returns (first: Area, second: Area)
      requires Valid()
      ensures first.start + first.len <= buffer.Length && second.start + second.len <= buffer.Length
      ensures first.len + second.len
              == WritableBytes() + (if WritableBytes() > 0 && 0 < readPos <= writePos then 1 else 0)
      ensures WritableBytes() > 0 ==> first.len > 0 && first.start == writePos
      ensures second.len > 0 ==> first.start + first.len == buffer.Length && second.start == 0
      ensures forall i :: 0 <= i < ReadableBytes() ==>
                            var slot := Slot(buffer.Length, readPos, i);
                            !(first.start <= slot < first.start + first.len)
                            && !(second.start <= slot < second.start + second.len)
    {
      first, second := Area(0, 0), Area(0, 0);
      if WritableBytes() == 0 { return; }
      if writePos < readPos {
        first := Area(writePos, readPos - writePos - 1);
      } else {
        first := Area(writePos, buffer.Length - writePos);
        if readPos > 0 {
          second := Area(0, readPos);
        } else {
          first := Area(writePos, buffer.Length - writePos - 1);
        }
      }
    }

    /** Advances the write position over bytes already stored; refuses more than is writable. */
    method HasWritten(len: nat) returns (ok: bool)
      requires Valid()
      modifies this`writePos
      ensures Valid() && ok == (len <= old(WritableBytes()))
      ensures writePos == if ok then Slot(buffer.Length, old(writePos), len) else old(writePos)
    {
      if len > WritableBytes() { return false; }
      SlotIsModulo(buffer.Length, writePos, len);
      writePos := (writePos + len) % buffer.Length;
      return true;
    }

    method HasRead(len: nat) returns (ok: bool)
      requires Valid()
      modifies this`readPos, this`writePos
      ensures Valid() && ok == (len <= old(ReadableBytes()))
      ensures Content() == if ok then old(Content())[len..] else old(Content())
      ensures !ok ==> unchanged(this)
      ensures ok && len == old(ReadableBytes()) ==> readPos == 0 && writePos == 0
      ensures ok && len < old(ReadableBytes()) ==>
                readPos == Slot(buffer.Length, old(readPos), len) && writePos == old(writePos)
    {
      if len > ReadableBytes() { return false; }
      SlotIsModulo(buffer.Length, readPos, len);
      ContentAdvance(buffer[..], readPos, writePos, len);
      readPos := (readPos + len) % buffer.Length;
      if readPos == writePos {
        readPos, writePos := 0, 0;
      }
      return true;
    }

    /** Growth, with the exact content it leaves. */
    method ExpandIfNeeded(len: nat)
      requires Valid()
      modifies this`buffer, this`readPos, this`writePos
      ensures Valid()
      ensures old(WritableBytes()) >= len ==> unchanged(this)
      ensures old(WritableBytes()) < len ==>
                && fresh(buffer) && readPos == 0
                && buffer.Length == GrownCapacity(old(buffer.Length), old(ReadableBytes()), len)
                && writePos == (if growth.MeasureThenReset? then old(ReadableBytes()) else old(writePos))
                && Content() == AfterGrowth(old(Content()), buffer.Length, writePos)
    {
      if WritableBytes() >= len { return; }
      var newCapacity := buffer.Length;
      while newCapacity - ReadableBytes() - 1 < len
        invariant newCapacity > ReadableBytes()
        invariant GrownCapacity(newCapacity, ReadableBytes(), len)
                  == GrownCapacity(buffer.Length, ReadableBytes(), len)
        decreases ReadableBytes() + 1 + len - newCapacity
      {
        newCapacity := newCapacity * 2;
      }
      var newBuffer := CopyAreas(newCapacity);
      var readable := ReadableBytes();
      buffer := newBuffer;
      readPos := 0;
      writePos := if growth.MeasureThenReset? then readable else ReadableBytes();
    }

    /** Makes room; the content survives exactly under the condition that Write has. */
    method EnsureWritable(len: nat)
      requires Valid()
      modifies this`buffer, this`readPos, this`writePos
      ensures Valid() && (fresh(buffer) || buffer == old(buffer))
      ensures Content() == old(Content())
              <==> old(WritableBytes()) >= len || growth.MeasureThenReset? || old(readPos) == 0
      ensures old(WritableBytes()) >= len ==> unchanged(this)
      ensures old(WritableBytes()) < len ==>
                && readPos == 0 && buffer.Length == GrownCapacity(old(buffer.Length), old(ReadableBytes()), len)
                && (growth.ResetThenMeasure? ==>
                      Content() == AfterGrowth(old(Content()), buffer.Length, old(writePos)))
    {
      GrowthKeepsContent(buffer[..], readPos, writePos, GrownCapacity(buffer.Length, ReadableBytes(), len));
      ExpandIfNeeded(len);
    }

    /** A new array that starts with the content and is zero beyond it. */
    method CopyAreas(newCapacity: nat) returns (newBuffer: array<char>)
      requires Valid() && newCapacity >= ReadableBytes()
      ensures fresh(newBuffer) && newBuffer[..] == Content() + Zeros(newCapacity - ReadableBytes())
    {
      var first, second := ReadableAreas();
      var one, two := buffer[first.start..first.start + first.len], buffer[second.start..second.start + second.len];
      newBuffer := new char[newCapacity](_ => '\0');
      assert newBuffer[..] == Zeros(newCapacity);
      assert one + two == Content();
      SplicedInOrder(newCapacity, one, two);
      Copy(newBuffer, 0, one);
      Copy(newBuffer, first.len, two);
    }

    /**
     Appends as much of `data` as fits after growing. That is all of it, after the old content, if
     and only if there was room, or growing measures first, or the queue started at cell 0.
     */
    method Write(data: string) returns (n: nat)
      requires Valid()
      modifies this, buffer
      ensures Valid() && (fresh(buffer) || buffer == old(buffer))
      ensures n == |data| && Content() == old(Content()) + data
              <==> old(WritableBytes()) >= |data| || growth.MeasureThenReset? || old(readPos) == 0
      ensures old(WritableBytes()) < |data| && growth.ResetThenMeasure? ==>
                var newCap := GrownCapacity(old(buffer.Length), old(ReadableBytes()), |data|);
                && n == Min(|data|, newCap - old(writePos) - 1)
                && Content() == AfterGrowth(old(Content()), newCap, old(writePos)) + data[..n]
      ensures old(WritableBytes()) >= |data| ==>
                buffer == old(buffer) && readPos == old(readPos)
                && writePos == Slot(buffer.Length, old(writePos), |data|)
      ensures old(WritableBytes()) < |data| ==>
                readPos == 0 && buffer.Length == GrownCapacity(old(buffer.Length), old(ReadableBytes()), |data|)
    {
      if data == "" { return 0; }
      GrowthKeepsContent(buffer[..], readPos, writePos, GrownCapacity(buffer.Length, ReadableBytes(), |data|));
      ExpandIfNeeded(|data|);
      n := Min(|data|, WritableBytes());
      if n == 0 { return; }
      Store(data[..n]);
      assert n == |data| ==> data[..n] == data;
    }

    /** Copies two pieces into the free cells without moving the write position. */
    method Place(one: string, two: string)
      requires Valid() && writePos + |one| <= buffer.Length && |two| <= writePos
      modifies buffer
      ensures buffer[..] == Placed(old(buffer[..]), writePos, one, two)
    {
      SplicedWrapped(buffer[..], writePos, one, two);
      Copy(buffer, writePos, one);
      Copy(buffer, 0, two);
    }

    /** The copying half of `write`: one or two pieces, then the write position. */
    method Store(data: string)
      requires Valid() && 0 < |data| <= WritableBytes()
      modifies this`writePos, buffer
      ensures Valid() && Content() == old(Content()) + data
      ensures writePos == Slot(buffer.Length, old(writePos), |data|)
    {
      var back := if writePos < readPos then readPos - writePos else buffer.Length - writePos;
      var k := Min(back, |data|);
      ContentPlaced(buffer[..], readPos, writePos, data[..k], data[k..]);
      Place(data[..k], data[k..]);
      assert data == data[..k] + data[k..];
      SlotIsModulo(buffer.Length, writePos, |data|);
      writePos := (writePos + |data|) % buffer.Length;
    }

    /** Zero-copy append: fill the areas in order, then commit. The same as `write` for what fits. */
    method FillAndCommit(data: string) returns (ok: bool)
      requires Valid()
      modifies this`writePos, buffer
      ensures Valid() && ok == (|data| <= old(WritableBytes()))
      ensures Content() == if ok then old(Content()) + data else old(Content())
      ensures writePos == if ok then Slot(buffer.Length, old(writePos), |data|) else old(writePos)
    {
      if |data| > WritableBytes() || data == "" { return |data| <= WritableBytes(); }
      FillAreas(data);
      ok := HasWritten(|data|);
    }

    /** Puts the data into the areas; the write position has yet to be moved over it. */
    method FillAreas(data: string)
      requires Valid() && 0 < |data| <= WritableBytes()
      modifies buffer
      ensures ContentOf(buffer[..], readPos, Slot(buffer.Length, writePos, |data|)) == old(Content()) + data
    {
      var first, second := WritableAreas();
      var k := Min(first.len, |data|);
      ContentPlaced(buffer[..], readPos, writePos, data[..k], data[k..]);
      Place(data[..k], data[k..]);
      assert data == data[..k] + data[k..];
    }

    /** Takes up to `len` bytes from the front. */
    method Read(len: nat) returns (data: string)
      requires Valid()
      modifies this`readPos, this`writePos
      ensures Valid()
      ensures var n := Min(len, |old(Content())|); data == old(Content())[..n] && Content() == old(Content())[n..]
      ensures readPos == if len == 0 || old(ReadableBytes()) == 0 then old(readPos)
                         else if len < old(ReadableBytes()) then Slot(buffer.Length, old(readPos), len) else 0
    {
      if len == 0 || ReadableBytes() == 0 { return ""; }
      var n := Min(len, ReadableBytes());
      data := CopyOut(n);
      var ok := HasRead(n);
    }

    /** The first `n` bytes, in one piece or two. */
    method CopyOut(n: nat) returns (data: string)
      requires Valid() && n <= ReadableBytes()
      ensures data == Content()[..n]
    {
      FrontOf(buffer[..], readPos, writePos, n);
      var back := buffer.Length - readPos;
      if back >= n {
        data := buffer[readPos..readPos + n];
      } else {
        data := buffer[readPos..] + buffer[..n - back];
      }
    }

    method ShrinkToFit()
      requires Valid()
      modifies this`buffer, this`readPos, this`writePos
      ensures Valid() && Content() == old(Content()) && (fresh(buffer) || buffer == old(buffer))
      ensures buffer.Length == Min(ShrunkCapacity(|old(Content())|), old(buffer.Length))
      ensures buffer.Length == Min(old(buffer.Length), if |old(Content())| < 512 then 1024 else 2 * |old(Content())|)
      ensures readPos == if |old(Content())| == 0 || buffer.Length < old(buffer.Length) then 0 else old(readPos)
    {
      if ReadableBytes() == 0 {
        if buffer.Length > 1024 {
          buffer := new char[1024](
            i requires 0 <= i < 1024 reads this, buffer => if i < buffer.Length then buffer[i] else '\0');
        }
        readPos, writePos := 0, 0;
        return;
      }
      var readable := ReadableBytes();
      var newCapacity := Min(ShrunkCapacity(readable), buffer.Length);
      if newCapacity >= buffer.Length { return; }
      var newBuffer := CopyAreas(newCapacity);
      buffer := newBuffer;
      readPos := 0;
      writePos := readable;
    }

    /** The least offset of `c` in the queue, looking at the part before the wrap first. */
    method FindChar(c: char) returns (found: Option<nat>)
      requires Valid()
      ensures IsFirstChar(Content(), c, found)
    {
      if ReadableBytes() == 0 { return None; }
      var readable, back := ReadableBytes(), buffer.Length - readPos;
      if readable <= back {
        var i := Scan(readPos, readPos + readable, c);
        if i < readPos + readable { return Some(i - readPos); }
      } else {
        var i := Scan(readPos, buffer.Length, c);
        if i < buffer.Length { return Some(i - readPos); }
        var j := Scan(0, readable - back, c);
        if j < readable - back { return Some(back + j); }
      }
      return None;
    }

    /** `std::find` over cells `lo` to `hi`. */
    method Scan(lo: nat, hi: nat, c: char) returns (i: nat)
      requires lo <= hi <= buffer.Length
      ensures lo <= i <= hi && (i < hi ==> buffer[i] == c)
      ensures forall k :: lo <= k < i ==> buffer[k] != c
    {
      i := lo;
      while i < hi && buffer[i] != c
        invariant lo <= i <= hi
        invariant forall k :: lo <= k < i ==> buffer[k] != c
      {
        i := i + 1;
      }
    }

    /** Compares `pattern` with the queue from offset `i` on, cell by cell across the wrap. */
    method CompareAt(pattern: string, i: nat) returns (matches: bool)
      requires Valid() && i + |pattern| <= ReadableBytes()
      ensures matches <==> MatchesAt(Content(), pattern, i)
    {
      ghost var content := Content();
      for j := 0 to |pattern|
        invariant forall k :: 0 <= k < j ==> content[i + k] == pattern[k]
      {
        var c := ByteAt(i + j);
        if c != pattern[j] {
          Mismatch(content, pattern, i, j);
          return false;
        }
      }
      return true;
    }

    method ByteAt(i: nat) returns (c: char)
      requires Valid() && i < ReadableBytes()
      ensures c == Content()[i]
    {
      CellAt(buffer[..], readPos, writePos, i);
      c := buffer[(readPos + i) % buffer.Length];
    }

    /** The least offset of `pattern`; an empty pattern is never found. */
    method Find(pattern: string) returns (found: Option<nat>)
      requires Valid()
      ensures if pattern == "" then found.None? else IsLeastMatch(Content(), pattern, found)
    {
      if pattern == "" || |pattern| > ReadableBytes() { return None; }
      for i := 0 to ReadableBytes() - |pattern| + 1
        invariant forall k :: 0 <= k < i ==> !MatchesAt(Content(), pattern, k)
      {
        var matches := CompareAt(pattern, i);
        if matches { return Some(i); }
      }
      return None;
    }
  }

  // ----------------------------------------------------------------- whole runs

  datatype Op =
    | WriteOp(data: string)
    | ReadOp(len: nat)
    | ReserveOp(len: nat)
    | ShrinkOp
    | FillOp(data: string)   // fill the writable areas, then `has_written`
    | SkipOp(len: nat)       // `has_read`

  /** `Refused` where the code throws. */
  datatype Reply = Wrote(n: nat) | Got(data: string) | Done | Refused

  /** Capacity, first cell and length of the queue: all that decides whether an array grows, and how. */
  datatype Shape = Shape(cap: nat, start: nat, len: nat)

  predicate Possible(s: Shape) { s.start < s.cap && s.len < s.cap }

  function Grown(s: Shape, len: nat): (t: Shape)
    requires Possible(s)
    ensures Possible(t) && t.cap - t.len - 1 >= len
  {
    if s.cap - s.len - 1 >= len then s else Shape(GrownCapacity(s.cap, s.len, len), 0, s.len)
  }

  /** The shape after an operation that kept the content. */
  function Reshaped(s: Shape, op: Op): (t: Shape)
    requires Possible(s)
    ensures s.cap >= 4 ==> Possible(t)
  {
    match op
    case WriteOp(data) => Grown(s, |data|).(len := s.len + |data|)
    case ReadOp(len) => if len == 0 || s.len == 0 then s else Skipped(s, Min(len, s.len))
    case ReserveOp(len) => Grown(s, len)
    case ShrinkOp =>
      var cap := Min(ShrunkCapacity(s.len), s.cap);
      Shape(cap, if s.len == 0 || cap < s.cap then 0 else s.start, s.len)
    case FillOp(data) => if |data| <= Room(s) then s.(len := s.len + |data|) else s
    case SkipOp(len) => if len <= s.len then Skipped(s, len) else s
  }

  /** An emptied queue starts over at cell 0. */
  function Skipped(s: Shape, len: nat): (t: Shape)
    requires Possible(s) && len <= s.len
    ensures Possible(t)
  {
    if len == s.len then s.(start := 0, len := 0) else s.(start := Slot(s.cap, s.start, len), len := s.len - len)
  }

  /** What can be written without growing. */
  function Room(s: Shape): nat
    requires Possible(s)
  {
    s.cap - s.len - 1
  }

  /** The operation makes the array grow while the queue does not start at cell 0. */
  predicate GrowsMisaligned(s: Shape, op: Op)
    requires Possible(s)
  {
    && s.start > 0
    && match op
       case WriteOp(data) => s.cap - s.len - 1 < |data|
       case ReserveOp(len) => s.cap - s.len - 1 < len
       case _ => false
  }

  function NewShape(capacity: nat): Shape {
    Shape(if capacity < 4 then 4 else capacity, 0, 0)
  }

  function ShapeAfter(capacity: nat, ops: seq<Op>): (s: Shape)
    ensures Possible(s) && s.cap >= 4
  {
    if ops == [] then NewShape(capacity) else Reshaped(ShapeAfter(capacity, ops[..|ops| - 1]), ops[|ops| - 1])
  }

  /** Some operation of the run makes a misaligned array grow. */
  predicate EverMisaligned(capacity: nat, ops: seq<Op>) {
    ops != []
    && (EverMisaligned(capacity, ops[..|ops| - 1])
        || GrowsMisaligned(ShapeAfter(capacity, ops[..|ops| - 1]), ops[|ops| - 1]))
  }

  ghost function ShapeOf(b: RingBuffer): (s: Shape)
    reads b
    requires b.Valid()
    ensures Possible(s) && s.cap >= 4
  {
    Shape(b.buffer.Length, b.readPos, b.ReadableBytes())
  }

  /**
   What a first-in first-out queue of bytes holds after an operation, and what it answers. How much
   can be filled in place is up to the array.
   */
  function FifoContent(q: string, room: nat, op: Op): string {
    match op
    case WriteOp(data) => q + data
    case ReadOp(len) => q[Min(len, |q|)..]
    case FillOp(data) => if |data| <= room then q + data else q
    case SkipOp(len) => if len <= |q| then q[len..] else q
    case _ => q
  }

  function FifoReply(q: string, room: nat, op: Op): Reply {
    match op
    case WriteOp(data) => Wrote(|data|)
    case ReadOp(len) => Got(q[..Min(len, |q|)])
    case FillOp(data) => if |data| <= room then Done else Refused
    case SkipOp(len) => if len <= |q| then Done else Refused
    case _ => Done
  }

  function FifoAfter(capacity: nat, ops: seq<Op>): string {
    if ops == [] then ""
    else
      var before := ops[..|ops| - 1];
      FifoContent(FifoAfter(capacity, before), Room(ShapeAfter(capacity, before)), ops[|ops| - 1])
  }

  /** The content after each operation. */
  function FifoContents(capacity: nat, ops: seq<Op>): seq<string> {
    if ops == [] then [] else FifoContents(capacity, ops[..|ops| - 1]) + [FifoAfter(capacity, ops)]
  }

  function FifoReplies(capacity: nat, ops: seq<Op>): seq<Reply> {
    if ops == [] then []
    else
      var before := ops[..|ops| - 1];
      FifoReplies(capacity, before)
      + [FifoReply(FifoAfter(capacity, before), Room(ShapeAfter(capacity, before)), ops[|ops| - 1])]
  }

  /** An operation did and answered what it does on a byte queue. */
  ghost predicate AsQueue(before: string, room: nat, op: Op, after: string, reply: Reply) {
    after == FifoContent(before, room, op) && reply == FifoReply(before, room, op)
  }

  // ------------------------------------------------------ the code as it stands

  /** What the buffer holds, and where: all that later operations depend on. */
  datatype Held = Held(content: string, cap: nat, start: nat)

  function ShapeIn(h: Held): Shape { Shape(h.cap, h.start, |h.content|) }

  predicate Sane(h: Held) { Possible(ShapeIn(h)) && h.cap >= 4 }

  /** Growth, in either order of its last steps. */
  function GrownAs(growth: Growth, h: Held, len: nat): (g: Held)
    requires Sane(h)
    ensures Sane(g)
  {
    if Room(ShapeIn(h)) >= len then h
    else
      var cap := GrownCapacity(h.cap, |h.content|, len);
      var w := Slot(h.cap, h.start, |h.content|);
      Held(if growth.MeasureThenReset? then h.content else AfterGrowth(h.content, cap, w), cap, 0)
  }

  datatype Outcome = Outcome(held: Held, reply: Reply)

  /** What an operation does, harm included. */
  function Did(growth: Growth, h: Held, op: Op): (o: Outcome)
    requires Sane(h)
    ensures Sane(o.held)
  {
    match op
    case WriteOp(data) =>
      var g := GrownAs(growth, h, |data|);
      var n := Min(|data|, Room(ShapeIn(g)));
      Outcome(g.(content := g.content + data[..n]), Wrote(n))
    case ReserveOp(len) => Outcome(GrownAs(growth, h, len), Done)
    case _ =>
      var t := Reshaped(ShapeIn(h), op);
      Outcome(Held(FifoContent(h.content, Room(ShapeIn(h)), op), t.cap, t.start),
              FifoReply(h.content, Room(ShapeIn(h)), op))
  }

  ghost function HeldIn(b: RingBuffer): (h: Held)
    reads b, b.buffer
    requires b.Valid()
    ensures Sane(h) && Slot(h.cap, h.start, |h.content|) == b.writePos
  {
    Held(b.Content(), b.buffer.Length, b.readPos)
  }

  /** Every operation does exactly that. */
  method Perform(b: RingBuffer, op: Op) returns (reply: Reply)
    requires b.Valid()
    modifies b, b.buffer
    ensures b.Valid() && (fresh(b.buffer) || b.buffer == old(b.buffer))
    ensures Outcome(HeldIn(b), reply) == Did(b.growth, old(HeldIn(b)), op)
  {
    if op.WriteOp? {
      var n := b.Write(op.data);
      assert op.data[..|op.data|] == op.data;
      reply := Wrote(n);
    } else if op.ReserveOp? {
      b.EnsureWritable(op.len);
      reply := Done;
    } else {
      reply := PerformWithin(b, op);
    }
  }

  /** Operations that never make the array grow. */
  method PerformWithin(b: RingBuffer, op: Op) returns (reply: Reply)
    requires b.Valid() && !op.WriteOp? && !op.ReserveOp?
    modifies b, b.buffer
    ensures b.Valid() && (fresh(b.buffer) || b.buffer == old(b.buffer))
    ensures Outcome(HeldIn(b), reply) == Did(b.growth, old(HeldIn(b)), op)
  {
    match op {
      case ReadOp(len) =>
        var data := b.Read(len);
        reply := Got(data);
      case ShrinkOp =>
        b.ShrinkToFit();
        reply := Done;
      case FillOp(data) =>
        var ok := b.FillAndCommit(data);
        reply := if ok then Done else Refused;
      case SkipOp(len) =>
        var ok := b.HasRead(len);
        reply := if ok then Done else Refused;
    }
  }

  /** The write position is the length exactly when the queue starts at cell 0. */
  lemma AfterGrowthIff(h: Held, cap: nat)
    requires Sane(h) && cap >= h.cap
    ensures var w := Slot(h.cap, h.start, |h.content|);
            && |AfterGrowth(h.content, cap, w)| == w && (w == |h.content| <==> h.start == 0)
            && (h.start == 0 ==> AfterGrowth(h.content, cap, w) == h.content)
  {}

  lemma WriteIsQueueIff(growth: Growth, h: Held, data: string)
    requires Sane(h)
    ensures var o := Did(growth, h, WriteOp(data));
            o.held.content == h.content + data && o.reply == Wrote(|data|)
            <==> growth.MeasureThenReset? || h.start == 0 || |data| <= Room(ShapeIn(h))
  {
    assert data[..|data|] == data;
    if |data| > Room(ShapeIn(h)) {
      AfterGrowthIff(h, GrownCapacity(h.cap, |h.content|, |data|));
    }
  }

  /** An operation is what it is on a byte queue if and only if it does not grow a misaligned array. */
  lemma DidIsQueueIff(growth: Growth, h: Held, op: Op)
    requires Sane(h)
    ensures var o := Did(growth, h, op);
            AsQueue(h.content, Room(ShapeIn(h)), op, o.held.content, o.reply)
            <==> growth.MeasureThenReset? || !GrowsMisaligned(ShapeIn(h), op)
    ensures growth.MeasureThenReset? || !GrowsMisaligned(ShapeIn(h), op) ==>
              ShapeIn(Did(growth, h, op).held) == Reshaped(ShapeIn(h), op)
  {
    match op
    case WriteOp(data) => WriteIsQueueIff(growth, h, data);
    case ReserveOp(len) =>
      if len > Room(ShapeIn(h)) {
        AfterGrowthIff(h, GrownCapacity(h.cap, |h.content|, len));
      }
    case ReadOp(_) =>
    case ShrinkOp =>
    case FillOp(_) =>
    case SkipOp(_) =>
  }

  /** The constructor throws for a capacity of zero. */
  method Create(growth: Growth, capacity: nat) returns (b: Option<RingBuffer>)
    ensures b.None? <==> capacity == 0
    ensures b.Some? ==> fresh(b.value) && fresh(b.value.buffer) && b.value.Valid() && b.value.growth == growth
                        && b.value.Content() == "" && ShapeOf(b.value) == NewShape(capacity)
  {
    if capacity == 0 { return None; }
    var r := new RingBuffer(growth, capacity);
    return Some(r);
  }

  /** Contents and answers of a run are those of a byte queue, operation by operation. */
  predicate OnTrack(capacity: nat, ops: seq<Op>, contents: seq<string>, answers: seq<Reply>) {
    contents == FifoContents(capacity, ops) && answers == FifoReplies(capacity, ops)
  }

  /** No misaligned array has grown to its harm. */
  predicate Sound(growth: Growth, capacity: nat, ops: seq<Op>) {
    growth.MeasureThenReset? || !EverMisaligned(capacity, ops)
  }

  lemma OneMoreOp(growth: Growth, capacity: nat, ops: seq<Op>)
    requires ops != []
    ensures var before := ops[..|ops| - 1];
            Sound(growth, capacity, ops)
            <==> && Sound(growth, capacity, before)
                 && (growth.MeasureThenReset? || !GrowsMisaligned(ShapeAfter(capacity, before), ops[|ops| - 1]))
  {}

  lemma OneMoreOnTrack(capacity: nat, ops: seq<Op>, contents: seq<string>, answers: seq<Reply>,
                       after: string, reply: Reply)
    requires ops != []
    ensures var before, op := ops[..|ops| - 1], ops[|ops| - 1];
            OnTrack(capacity, ops, contents + [after], answers + [reply])
            <==> && OnTrack(capacity, before, contents, answers)
                 && AsQueue(FifoAfter(capacity, before), Room(ShapeAfter(capacity, before)), op, after, reply)
  {
    var before := ops[..|ops| - 1];
    SnocEqual(contents, after, FifoContents(capacity, before), FifoAfter(capacity, ops));
    SnocEqual(answers, reply, FifoReplies(capacity, before),
              FifoReply(FifoAfter(capacity, before), Room(ShapeAfter(capacity, before)), ops[|ops| - 1]));
  }

  lemma SnocEqual<T>(xs: seq<T>, x: T, ys: seq<T>, y: T)
    ensures xs + [x] == ys + [y] <==> xs == ys && x == y
  {
    if xs + [x] == ys + [y] {
      assert |xs| == |ys| && (xs + [x])[..|xs|] == xs && (ys + [y])[..|ys|] == ys;
      assert (xs + [x])[|xs|] == x && (ys + [y])[|ys|] == y;
    }
  }

  /** A run of the code as it stands. */
  function HeldAfter(growth: Growth, capacity: nat, ops: seq<Op>): (h: Held)
    ensures Sane(h)
  {
    if ops == [] then Held("", NewShape(capacity).cap, 0)
    else Did(growth, HeldAfter(growth, capacity, ops[..|ops| - 1]), ops[|ops| - 1]).held
  }

  function AnswersOf(growth: Growth, capacity: nat, ops: seq<Op>): seq<Reply> {
    if ops == [] then []
    else
      var before := ops[..|ops| - 1];
      AnswersOf(growth, capacity, before) + [Did(growth, HeldAfter(growth, capacity, before), ops[|ops| - 1]).reply]
  }

  function ContentsOf(growth: Growth, capacity: nat, ops: seq<Op>): seq<string> {
    if ops == [] then []
    else ContentsOf(growth, capacity, ops[..|ops| - 1]) + [HeldAfter(growth, capacity, ops).content]
  }

  /**
   A run on a new buffer holds and answers after every operation what a byte queue would, if and only
   if growing measures first or no operation of the run makes a misaligned array grow.
   */
  lemma {:induction false} RunIsQueueIff(growth: Growth, capacity: nat, ops: seq<Op>)
    ensures OnTrack(capacity, ops, ContentsOf(growth, capacity, ops), AnswersOf(growth, capacity, ops))
            <==> growth.MeasureThenReset? || !EverMisaligned(capacity, ops)
    ensures Sound(growth, capacity, ops) ==>
              var h := HeldAfter(growth, capacity, ops);
              h.content == FifoAfter(capacity, ops) && ShapeIn(h) == ShapeAfter(capacity, ops)
    decreases |ops|
  {
    if ops != [] {
      var before, op := ops[..|ops| - 1], ops[|ops| - 1];
      var h := HeldAfter(growth, capacity, before);
      var o := Did(growth, h, op);
      RunIsQueueIff(growth, capacity, before);
      OneMoreOp(growth, capacity, ops);
      OneMoreOnTrack(capacity, ops, ContentsOf(growth, capacity, before), AnswersOf(growth, capacity, before),
                     o.held.content, o.reply);
      DidIsQueueIff(growth, h, op);
    }
  }

  method RunAll(growth: Growth, capacity: nat, ops: seq<Op>) returns (b: RingBuffer, answers: seq<Reply>)
    requires capacity > 0
    ensures fresh(b) && fresh(b.buffer) && b.Valid() && b.growth == growth
    ensures HeldIn(b) == HeldAfter(growth, capacity, ops) && answers == AnswersOf(growth, capacity, ops)
    decreases |ops|
  {
    if ops == [] {
      b := new RingBuffer(growth, capacity);
      return b, [];
    }
    b, answers := RunAll(growth, capacity, ops[..|ops| - 1]);
    var reply := Perform(b, ops[|ops| - 1]);
    answers := answers + [reply];
  }

  /** A run on the object, and what is left in it: exactly as specified, for either order of growth. */
  method Drive(growth: Growth, capacity: nat, ops: seq<Op>) returns (replies: Option<seq<Reply>>, rest: string)
    ensures replies.None? <==> capacity == 0
    ensures replies.Some? ==>
              && replies.value == AnswersOf(growth, capacity, ops)
              && rest == HeldAfter(growth, capacity, ops).content
  {
    if capacity == 0 { return None, ""; }
    var b, answers := RunAll(growth, capacity, ops);
    rest := b.Read(b.ReadableBytes());
    return Some(answers), rest;
  }

  /** A run on which the code as written hands out a byte that nobody wrote. */
  method MisalignedGrowthInventsBytes() returns (got: string)
    ensures got == "bc\0def"
  {
    var b := new RingBuffer(ResetThenMeasure, 4);
    var n := b.Write("abc");
    var first := b.Read(1);
    assert GrownCapacity(4, 2, 3) == 8;
    n := b.Write("def");
    assert b.Content() == "bc\0" + "def";
    got := b.Read(6);
  }
}
