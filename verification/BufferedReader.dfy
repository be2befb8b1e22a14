/** A buffered view of a source stream with an optional checkpoint (BufferedReader.cpp,
    BufferReader.cpp). */
module BufferedReader {
  import opened Sequences
  import opened Wrappers

  type byte = x: int | 0 <= x < 256

  datatype ErrorCode = Success | EndOfFile | Truncated | Unsupported | BadParam

  function Min(a: nat, b: nat): nat {
    if a <= b then a else b
  }

  /** The index of the first delimiter of s at or after i, or |s|. */
  function FindDelim(s: seq<byte>, delim: byte, i: nat): (k: nat)
    requires i <= |s|
    ensures i <= k <= |s|
    ensures k < |s| ==> s[k] == delim
    ensures delim !in s[i..k]
    decreases |s| - i
  {
    if i == |s| || s[i] == delim then i else FindDelim(s, delim, i + 1)
  }

  /** The stream the buffered reader speeds up; its content does not change. */
  class ByteSource {
    const content: seq<byte>
    var pos: nat

    constructor (content: seq<byte>)
      ensures this.content == content && pos == 0
    {
      this.content := content;
      pos := 0;
    }

    ghost predicate Valid()
      reads this
    {
      pos <= |content|
    }

    /** Reads as many of the requested bytes as remain. */
    method TryRead(n: nat) returns (code: ErrorCode, data: seq<byte>)
      requires Valid()
      modifies this
      ensures Valid() && pos == old(pos) + |data| && |data| == Min(n, |content| - old(pos))
      ensures data == content[old(pos)..pos]
      ensures code == if n > 0 && data == [] then EndOfFile else Success
    {
      var end := pos + Min(n, |content| - pos);
      data := content[pos..end];
      code := if n > 0 && data == [] then EndOfFile else Success;
      pos := end;
    }

    method TrySeekFromBegin(p: nat) returns (code: ErrorCode)
      requires Valid()
      modifies this
      ensures Valid()
      ensures if p <= |content| then code == Success && pos == p else code == Truncated && pos == old(pos)
    {
      if p > |content| { return Truncated; }
      pos := p;
      code := Success;
    }
  }

  /** A reader over a fixed buffer. */
  class BufferReader {
    const data: seq<byte>
    var pos: nat

    ghost predicate Valid()
      reads this
    {
      pos <= |data|
    }

    constructor (data: seq<byte>, pos: nat)
      requires pos <= |data|
      ensures Valid() && this.data == data && this.pos == pos
    {
      this.data := data;
      this.pos := pos;
    }

    method TryRead(n: nat) returns (code: ErrorCode, bytes: seq<byte>)
      requires Valid()
      modifies this
      ensures Valid() && pos == old(pos) + Min(n, |data| - old(pos))
      ensures bytes == data[old(pos)..pos]
      ensures code == if n > 0 && old(pos) == |data| then EndOfFile else Success
    {
      if pos == |data| {
        bytes := [];
        code := if n == 0 then Success else EndOfFile;
        return;
      }
      var count := Min(|data| - pos, n);
      bytes := data[pos..pos + count];
      pos := pos + count;
      code := Success;
    }

    /** Reads up to and including the next delimiter, or all that is left. */
    method TryReadToDelimiter(delim: byte, keepDelimiter: bool)
      returns (code: ErrorCode, appended: seq<byte>, foundDelim: bool, count: nat)
      requires Valid()
      modifies this
      ensures Valid() && pos == old(pos) + count
      ensures code == if old(pos) == |data| then EndOfFile else Success
      ensures var k := FindDelim(data, delim, old(pos));
              && foundDelim == (k < |data|)
              && pos == (if foundDelim then k + 1 else k)
              && appended == data[old(pos)..(if foundDelim && keepDelimiter then k + 1 else k)]
    {
      if pos == |data| {
        return EndOfFile, [], false, 0;
      }
      var k := pos;
      while k < |data| && data[k] != delim
        invariant pos <= k <= |data|
        invariant FindDelim(data, delim, k) == FindDelim(data, delim, pos)
      {
        k := k + 1;
      }
      foundDelim := k < |data|;
      count := if foundDelim then k - pos + 1 else |data| - pos;
      var appendLength := if foundDelim && !keepDelimiter then count - 1 else count;
      appended := data[pos..pos + appendLength];
      pos := pos + count;
      code := Success;
    }

    method TrySeekFromBegin(p: nat) returns (code: ErrorCode)
      requires Valid()
      modifies this
      ensures Valid()
      ensures if p <= |data| then code == Success && pos == p else code == Truncated && pos == old(pos)
    {
      if p > |data| { return Truncated; }
      pos := p;
      code := Success;
    }
  }

  /** The least multiple of factor that is not below v. */
  function RoundUp(v: nat, factor: nat): (r: nat)
    requires factor > 0
    ensures v <= r < v + factor
    ensures if v == 0 then r == 0 else factor <= r
  {
    if v == 0 then 0 else if v <= factor then factor else factor + RoundUp(v - factor, factor)
  }

  /** It is what int_round_up_to_multiple computes. */
  lemma {:induction false} RoundUpFormula(v: nat, factor: nat)
    requires factor > 0
    ensures RoundUp(v, factor) == ((v + factor - 1) / factor) * factor
  {
    if v > factor {
      RoundUpFormula(v - factor, factor);
      OneMultipleMore(v - 1, factor);
    } else if v > 0 {
      OneMultipleMore(v - 1, factor);
      SmallQuotient(v - 1, factor);
    } else {
      SmallQuotient(factor - 1, factor);
    }
  }

  lemma TimesLess(a: nat, b: nat, factor: nat)
    requires a < b
    ensures a * factor + factor <= b * factor
  {
    assert b * factor == a * factor + factor + (b - a - 1) * factor;
  }

  lemma Quotient(v: nat, factor: nat, q: nat, m: nat)
    requires m < factor && v == q * factor + m
    ensures v / factor == q && v % factor == m
  {
    var k := v / factor;
    assert v == k * factor + v % factor;
    if q < k { TimesLess(q, k, factor); } else if k < q { TimesLess(k, q, factor); }
  }

  lemma OneMultipleMore(v: nat, factor: nat)
    requires factor > 0
    ensures (v + factor) / factor == v / factor + 1 && (v + factor) % factor == v % factor
  {
    var q, m := v / factor, v % factor;
    assert v == q * factor + m;
    Quotient(v + factor, factor, q + 1, m);
  }

  lemma SmallQuotient(v: nat, factor: nat)
    requires v < factor
    ensures v / factor == 0
  {
  }

  /** How far it is from pos to the next multiple of size. */
  function ToBoundary(pos: nat, size: nat): (n: nat)
    requires size > 0
    ensures 0 < n <= size
  {
    if pos < size then size - pos else ToBoundary(pos - size, size)
  }

  lemma {:induction false} ToBoundaryFormula(pos: nat, size: nat)
    requires size > 0
    ensures ToBoundary(pos, size) == size - pos % size
  {
    if pos >= size {
      ToBoundaryFormula(pos - size, size);
      OneMultipleMore(pos - size, size);
    }
  }

  /** std::vector::resize, with new elements zero. */
  function Resize(buffer: seq<byte>, size: nat): (r: seq<byte>)
    ensures |r| == size && r[..Min(size, |buffer|)] == buffer[..Min(size, |buffer|)]
  {
    if size <= |buffer| then buffer[..size] else buffer + seq(size - |buffer|, _ => 0)
  }

  lemma KeptAfterDrop(buffer: seq<byte>, data: seq<byte>, head: nat, size: nat)
    requires head <= |data| <= |buffer| && data == buffer[..|data|] && |data| - head <= size
    ensures Resize(buffer[head..], size)[..|data| - head] == data[head..] == data[head..|data|]
  {
    var n, rest := |data| - head, buffer[head..];
    assert n <= Min(size, |rest|);
    assert Resize(rest, size)[..n] == Resize(rest, size)[..Min(size, |rest|)][..n];
  }

  /** The buffer after writing data at pos. */
  function WriteAt(buffer: seq<byte>, pos: nat, data: seq<byte>): (r: seq<byte>)
    requires pos + |data| <= |buffer|
    ensures |r| == |buffer| && r[..pos + |data|] == buffer[..pos] + data
  {
    buffer[..pos] + data + buffer[pos + |data|..]
  }

  /** How a refill goes: how much to ask for, where to put it, where the buffer then begins in the
      source, and how big the buffer is made. */
  datatype RefillPlan = RefillPlan(toRead: nat, nextPos: nat, nextBegin: nat, size: nat)

  method PlanRefill(
    baseSize: nat, bufferBegin: nat, dataSize: nat, bufferSize: nat, hasCheckpoint: bool, n: nat)
    returns (p: RefillPlan)
    requires baseSize > 0 && n > 0 && dataSize <= bufferSize && (hasCheckpoint || bufferSize > 0)
    requires bufferSize == 0 || baseSize <= bufferSize
    ensures 0 < p.toRead && p.nextPos + p.toRead <= p.size && baseSize <= p.size && bufferSize <= p.size
    ensures hasCheckpoint ==> n <= p.toRead && p.nextPos == dataSize && p.nextBegin == bufferBegin
    ensures !hasCheckpoint ==> p.toRead == ToBoundary(bufferBegin + dataSize, baseSize)
    ensures || (p.nextPos == dataSize && p.nextBegin == bufferBegin)
            || (p.nextPos == 0 && p.nextBegin == bufferBegin + dataSize)
  {
    var end := bufferBegin + dataSize;
    var available := bufferSize - dataSize;
    if hasCheckpoint {
      var toRead := ((end + n + baseSize - 1) / baseSize) * baseSize;
      RoundUpFormula(end + n, baseSize);
      p := RefillPlan(toRead, dataSize, bufferBegin, if toRead > available then dataSize + toRead else bufferSize);
    } else {
      var toRead := baseSize - end % baseSize;
      ToBoundaryFormula(end, baseSize);
      if toRead > available {
        p := RefillPlan(toRead, 0, end, bufferSize);
      } else {
        p := RefillPlan(toRead, dataSize, bufferBegin, bufferSize);
      }
    }
  }

  lemma SliceOfSlice(content: seq<byte>, begin: nat, end: nat, i: nat, j: nat)
    requires begin <= end <= |content| && i <= j <= end - begin
    ensures content[begin..end][i..j] == content[begin + i..begin + j]
  {
    var a, b := content[begin..end][i..j], content[begin + i..begin + j];
    assert |a| == |b| && forall k :: 0 <= k < |a| ==> a[k] == b[k];
  }

  /** Searching a window of the source finds the delimiter the source has there, if it has one. */
  lemma {:induction false} FindDelimInWindow(content: seq<byte>, delim: byte, begin: nat, end: nat, i: nat)
    requires begin <= end <= |content| && i <= end - begin
    ensures var k := FindDelim(content, delim, begin + i);
            FindDelim(content[begin..end], delim, i) == if k < end then k - begin else end - begin
    decreases end - begin - i
  {
    if i < end - begin && content[begin + i] != delim {
      FindDelimInWindow(content, delim, begin, end, i + 1);
    }
  }

  /** Reading to a delimiter in a window of the content. */
  lemma WindowRead(content: seq<byte>, delim: byte, begin: nat, end: nat, i: nat, keep: bool)
    requires begin <= end <= |content| && i <= end - begin
    ensures var k, w := FindDelim(content, delim, begin + i), FindDelim(content[begin..end], delim, i);
            var found := w < end - begin;
            && (found <==> k < end) && begin + w == (if found then k else end)
            && content[begin..end][i..(if found && keep then w + 1 else w)]
               == content[begin + i..(if found then if keep then k + 1 else k else end)]
  {
    FindDelimInWindow(content, delim, begin, end, i);
    var w := FindDelim(content[begin..end], delim, i);
    SliceOfSlice(content, begin, end, i, if w < end - begin && keep then w + 1 else w);
  }

  lemma {:induction false} FindDelimFromLater(content: seq<byte>, delim: byte, i: nat, j: nat)
    requires i <= j <= |content| && j <= FindDelim(content, delim, i)
    ensures FindDelim(content, delim, j) == FindDelim(content, delim, i)
    decreases j - i
  {
    if i < j { FindDelimFromLater(content, delim, i + 1, j); }
  }

  lemma TextJoins(before: seq<byte>, content: seq<byte>, i: nat, j: nat, k: nat)
    requires i <= j <= k <= |content|
    ensures before + content[i..j] + content[j..k] == before + content[i..k]
  {
    assert content[i..j] + content[j..k] == content[i..k];
  }

  lemma SlicesJoin(content: seq<byte>, i: nat, j: nat, k: nat)
    requires i <= j <= k <= |content|
    ensures content[i..j] + content[j..k] == content[i..k]
  {
  }

  lemma KeptThenRead(content: seq<byte>, begin: nat, end: nat, newEnd: nat, nextPos: nat, nextBegin: nat)
    requires begin <= end <= newEnd <= |content|
    requires (nextPos == end - begin && nextBegin == begin) || (nextPos == 0 && nextBegin == end)
    ensures content[begin..end][..nextPos] + content[end..newEnd] == content[nextBegin..newEnd]
  {
  }

  const MIN_BUFFER_SIZE: nat := 4096

  class Reader {
    const baseSize: nat
    const source: ByteSource
    var inSrcPos: nat
    var buffer: seq<byte>
    var view: BufferReader
    var bufferBegin: nat
    var checkpoint: Option<nat>
    var highest: nat

    /** The position in the source where the buffered data ends. */
    function BufferEnd(): nat
      reads this, view
    {
      bufferBegin + |view.data|
    }

    /** The buffer holds source[bufferBegin..BufferEnd()], the source is at BufferEnd(), and all
        positions lie in the order checkpoint, head, highest. */
    ghost predicate ValidBuffer()
      reads this, source, view
    {
      && baseSize > 0
      && source.Valid() && view.Valid()
      && BufferEnd() == source.pos
      && view.data == source.content[bufferBegin..source.pos]
      && |view.data| <= |buffer| && view.data == buffer[..|view.data|]
      && (|buffer| == 0 || baseSize <= |buffer|)
      && bufferBegin <= inSrcPos <= highest <= BufferEnd()
      && (checkpoint.None? ==> inSrcPos == highest)
      && (checkpoint.Some? ==> bufferBegin <= checkpoint.value <= inSrcPos)
    }

    /** The head in the buffer is where the reader says it is. */
    predicate InSync()
      reads this, view
    {
      bufferBegin + view.pos == inSrcPos
    }

    ghost predicate Valid()
      reads this, source, view
    {
      ValidBuffer() && InSync()
    }

    /** There is room for the next refill: the buffer may grow, or is not empty. */
    predicate Writable()
      reads this
    {
      checkpoint.Some? || |buffer| > 0
    }

    constructor (source: ByteSource, baseSize: nat)
      requires source.Valid() && baseSize > 0
      ensures this.source == source && this.baseSize == baseSize && fresh(view)
      ensures inSrcPos == source.pos && highest == source.pos && checkpoint.None? && Writable()
      ensures Valid() <==> source.pos == 0
      ensures BufferEnd() == 0
    {
      this.source := source;
      this.baseSize := baseSize;
      inSrcPos := source.pos;
      highest := source.pos;
      buffer := seq(baseSize, _ => 0);
      bufferBegin := 0;
      checkpoint := None;
      view := new BufferReader([], 0);
    }

    /** Grows the buffer as planned and reads from the source into it, inside its bounds. */
    method FillBuffer(plan: RefillPlan, ghost begin: nat, ghost dataSize: nat) returns (code: ErrorCode, filled: nat)
      requires source.Valid() && begin + dataSize == source.pos && dataSize <= |buffer|
      requires buffer[..dataSize] == source.content[begin..source.pos]
      requires 0 < plan.toRead && plan.nextPos + plan.toRead <= plan.size && |buffer| <= plan.size
      requires || (plan.nextPos == dataSize && plan.nextBegin == begin)
               || (plan.nextPos == 0 && plan.nextBegin == source.pos)
      modifies this`buffer, source
      ensures source.Valid() && |buffer| == plan.size
      ensures source.pos == old(source.pos) + Min(plan.toRead, |source.content| - old(source.pos))
      ensures filled == plan.nextPos + (source.pos - old(source.pos)) <= |buffer|
      ensures buffer[..filled] == source.content[plan.nextBegin..source.pos]
      ensures code == if source.pos == old(source.pos) then EndOfFile else Success
    {
      if plan.size > |buffer| {
        buffer := Resize(buffer, plan.size);
      }
      assert buffer[..plan.nextPos] == source.content[begin..source.pos][..plan.nextPos];
      var data;
      code, data := source.TryRead(plan.toRead);
      buffer := WriteAt(buffer, plan.nextPos, data);
      filled := plan.nextPos + |data|;
      KeptThenRead(source.content, begin, old(source.pos), source.pos, plan.nextPos, plan.nextBegin);
    }

    /** Reads more of the source into the buffer. With a checkpoint the data is appended and the
        buffer grows; without one the buffer is reused. The head is left where the data ended. */
    method RefillReaderBuffer(n: nat) returns (code: ErrorCode, ghost asked: nat)
      requires ValidBuffer() && Writable() && n > 0
      requires checkpoint.None? ==> inSrcPos == BufferEnd()
      modifies this`buffer, this`view, this`bufferBegin, source
      ensures fresh(view) && ValidBuffer() && Writable()
      ensures code == if old(source.pos) == |source.content| then EndOfFile else Success
      ensures bufferBegin + view.pos == old(BufferEnd())
      ensures asked > 0 && BufferEnd() == old(BufferEnd()) + Min(asked, |source.content| - old(BufferEnd()))
      ensures checkpoint.Some? ==> asked >= n && bufferBegin == old(bufferBegin)
      ensures checkpoint.None? ==> asked == ToBoundary(old(BufferEnd()), baseSize)
    {
      var plan := PlanRefill(baseSize, bufferBegin, |view.data|, |buffer|, checkpoint.Some?, n);
      asked := plan.toRead;
      var filled;
      code, filled := FillBuffer(plan, bufferBegin, |view.data|);
      view := new BufferReader(buffer[..filled], plan.nextPos);
      bufferBegin := plan.nextBegin;
    }

    /** Discards the data before the head; the buffer keeps only whole multiples of its base size. */
    method DropContentBeforeCurrentPos()
      requires Valid() && checkpoint.Some?
      modifies this`buffer, this`view, this`bufferBegin
      ensures fresh(view) && bufferBegin == inSrcPos && view.pos == 0
      ensures BufferEnd() == old(BufferEnd()) && view.data == source.content[inSrcPos..source.pos]
      ensures |view.data| <= |buffer| && view.data == buffer[..|view.data|]
      ensures |buffer| == 0 || baseSize <= |buffer|
      ensures |buffer| == 0 <==> inSrcPos == BufferEnd()
    {
      var head := view.pos;
      var newDataSize := |view.data| - head;
      var newBufferSize := RoundUp(newDataSize, baseSize);
      ghost var kept := source.content[inSrcPos..source.pos];
      assert view.data[head..|view.data|] == kept by {
        SliceOfSlice(source.content, bufferBegin, source.pos, head, |view.data|);
      }
      KeptAfterDrop(buffer, view.data, head, newBufferSize);
      buffer := Resize(buffer[head..], newBufferSize);
      bufferBegin := bufferBegin + head;
      view := new BufferReader(buffer[..newDataSize], 0);
    }

    /** Sets a checkpoint at the head. */
    method SetCheckpoint() returns (pos: nat)
      requires Valid()
      modifies this`buffer, this`view, this`bufferBegin, this`checkpoint
      ensures (view == old(view) || fresh(view)) && Valid() && Writable()
      ensures pos == inSrcPos && checkpoint == Some(inSrcPos)
      ensures BufferEnd() == old(BufferEnd())
    {
      if checkpoint.Some? && checkpoint.value < inSrcPos && |view.data| != baseSize {
        DropContentBeforeCurrentPos();
      }
      checkpoint := Some(inSrcPos);
      pos := inSrcPos;
    }

    method UpdateInSrcPos(pos: nat)
      modifies this`inSrcPos, this`highest
      ensures inSrcPos == pos && highest == if pos > old(highest) then pos else old(highest)
    {
      inSrcPos := pos;
      highest := if pos > highest then pos else highest;
    }

    /** The lowest position a seek may go to. */
    function SeekLowerBound(): nat
      reads this
    {
      if checkpoint.Some? then checkpoint.value else inSrcPos
    }

    /** The part of a seek under a checkpoint that has to buffer more data first. */
    method RefillAndSeek(p: nat) returns (code: ErrorCode)
      requires ValidBuffer() && checkpoint.Some? && BufferEnd() < p
      modifies this`buffer, this`view, this`bufferBegin, source
      ensures fresh(view) && ValidBuffer() && bufferBegin == old(bufferBegin)
      ensures code == if p <= |source.content| then Success else Truncated
      ensures bufferBegin + view.pos == if code == Success then p else old(BufferEnd())
      ensures code == Success ==> p <= BufferEnd()
    {
      ghost var asked;
      code, asked := RefillReaderBuffer(p - BufferEnd());
      if code == EndOfFile { return Truncated; }
      code := view.TrySeekFromBegin(p - bufferBegin);
    }

    /** Seeks. Every position from the lower bound to the end of the source can be reached; buffered
        positions are reached without touching the source. A seek past the end fails, and then loses
        the reader's place exactly when a checkpoint is set and unread data is buffered. */
    method TrySeekFromBegin(p: nat) returns (code: ErrorCode)
      requires Valid()
      modifies this`inSrcPos, this`highest, this`buffer, this`view, this`bufferBegin, view, source
      ensures (view == old(view) || fresh(view)) && ValidBuffer()
      ensures code == if p == old(inSrcPos) then Success
                      else if p < old(SeekLowerBound()) then Unsupported
                      else if p <= |source.content| then Success
                      else Truncated
      ensures code == Success ==> inSrcPos == p && highest == (if p > old(highest) then p else old(highest))
      ensures code != Success ==> inSrcPos == old(inSrcPos) && highest == old(highest)
      ensures InSync() <==> !(code == Truncated && checkpoint.Some? && old(inSrcPos) != old(BufferEnd()))
      ensures p <= old(BufferEnd()) ==> BufferEnd() == old(BufferEnd()) && source.pos == old(source.pos)
      ensures old(Writable()) ==> Writable()
    {
      if p == inSrcPos { return Success; }
      if p < SeekLowerBound() { return Unsupported; }
      code := view.TrySeekFromBegin(p - bufferBegin);
      if code == Truncated {
        if checkpoint.None? {
          code := source.TrySeekFromBegin(p);
          if code != Success { return code; }
          view := new BufferReader([], 0);
          bufferBegin := p;
        } else {
          code := RefillAndSeek(p);
          if code != Success { return code; }
        }
      }
      UpdateInSrcPos(p);
      code := Success;
    }

    /** Clears the checkpoint and moves the head to the highest position reached. The seek cannot
        fail. Room for the next refill is left exactly when some buffered data is still unread. */
    method ClearCheckpoint()
      requires Valid()
      modifies this`inSrcPos, this`highest, this`buffer, this`view, this`bufferBegin, this`checkpoint, view, source
      ensures (view == old(view) || fresh(view)) && Valid() && checkpoint.None?
      ensures inSrcPos == highest == old(highest) && BufferEnd() == old(BufferEnd())
      ensures old(checkpoint).Some? ==> (Writable() <==> old(highest) < old(BufferEnd()))
      ensures old(checkpoint).None? ==> (Writable() <==> old(Writable()))
    {
      if checkpoint.None? { return; }
      var code := TrySeekFromBegin(highest);
      // The source throws here if the seek failed.
      assert code == Success;
      DropContentBeforeCurrentPos();
      checkpoint := None;
    }

    /** Buffers data if none is left unread; the head does not move. */
    method TryRefillBufferIfEmpty() returns (code: ErrorCode)
      requires Valid() && Writable()
      modifies this`buffer, this`view, this`bufferBegin, source
      ensures (view == old(view) || fresh(view)) && Valid() && Writable()
      ensures code == if old(inSrcPos) == old(BufferEnd()) == |source.content| then EndOfFile else Success
      ensures code == Success ==> inSrcPos < BufferEnd()
      ensures old(inSrcPos) < old(BufferEnd()) ==> BufferEnd() == old(BufferEnd())
      ensures old(inSrcPos) == old(BufferEnd()) && checkpoint.None? ==>
                BufferEnd()
                == old(BufferEnd()) + Min(ToBoundary(old(BufferEnd()), baseSize), |source.content| - old(BufferEnd()))
    {
      if |view.data| != view.pos { return Success; }
      ghost var asked;
      code, asked := RefillReaderBuffer(baseSize);
    }

    /** The buffered data from the head on. */
    method PeekBufferedData() returns (data: seq<byte>)
      requires Valid()
      ensures inSrcPos <= BufferEnd() <= |source.content| && data == source.content[inSrcPos..BufferEnd()]
    {
      data := view.data[view.pos..];
    }

    /** Looks ahead without moving: some data at the head, unless the source has ended. */
    method RefillAndPeek() returns (code: ErrorCode, data: seq<byte>)
      requires Valid() && Writable()
      modifies this`buffer, this`view, this`bufferBegin, source
      ensures (view == old(view) || fresh(view)) && Valid() && Writable()
      ensures inSrcPos + |data| <= |source.content| && data == source.content[inSrcPos..inSrcPos + |data|]
      ensures code == if inSrcPos == |source.content| then EndOfFile else Success
      ensures data == [] <==> code == EndOfFile
    {
      code := TryRefillBufferIfEmpty();
      data := PeekBufferedData();
    }

    /** Reads what the buffer holds at the head, without touching the source. */
    method ReadBuffered(n: nat) returns (code: ErrorCode, bytes: seq<byte>)
      requires Valid() && n > 0
      modifies this`inSrcPos, this`highest, view
      ensures Valid() && BufferEnd() == old(BufferEnd()) && source.pos == old(source.pos)
      ensures inSrcPos == old(inSrcPos) + |bytes| && |bytes| <= n
      ensures bytes == source.content[old(inSrcPos)..inSrcPos]
      ensures highest == if inSrcPos > old(highest) then inSrcPos else old(highest)
      ensures if old(inSrcPos) == old(BufferEnd()) then code == EndOfFile && bytes == []
              else code == Success && bytes != []
    {
      code, bytes := view.TryRead(n);
      SliceOfSlice(source.content, bufferBegin, source.pos, old(view.pos), view.pos);
      if code == Success { UpdateInSrcPos(inSrcPos + |bytes|); }
    }

    /** One turn of the read loop: reads what is buffered, or refills if nothing is. */
    method ReadChunk(n: nat) returns (code: ErrorCode, bytes: seq<byte>)
      requires Valid() && Writable() && n > 0
      modifies this`inSrcPos, this`highest, this`buffer, this`view, this`bufferBegin, view, source
      ensures (view == old(view) || fresh(view)) && Valid() && Writable()
      ensures inSrcPos == old(inSrcPos) + |bytes| <= |source.content| && |bytes| <= n
      ensures bytes == source.content[old(inSrcPos)..inSrcPos]
      ensures highest == if inSrcPos > old(highest) then inSrcPos else old(highest)
      ensures if code == EndOfFile then bytes == [] && inSrcPos == |source.content|
              else bytes != [] || source.pos > old(source.pos)
    {
      code, bytes := ReadBuffered(n);
      if code == EndOfFile {
        ghost var asked;
        code, asked := RefillReaderBuffer(baseSize);
      }
    }

    /** Reads bytes at the head: exactly the bytes of the source there, as many as asked for or as
        remain. */
    method TryRead(n: nat) returns (code: ErrorCode, bytes: seq<byte>)
      requires Valid() && (n > 0 ==> Writable())
      modifies this`inSrcPos, this`highest, this`buffer, this`view, this`bufferBegin, view, source
      ensures (view == old(view) || fresh(view)) && Valid() && (old(Writable()) ==> Writable())
      ensures inSrcPos == old(inSrcPos) + Min(n, |source.content| - old(inSrcPos))
      ensures bytes == source.content[old(inSrcPos)..inSrcPos]
      ensures highest == if inSrcPos > old(highest) then inSrcPos else old(highest)
      ensures code == if n > 0 && inSrcPos == old(inSrcPos) then EndOfFile else Success
    {
      bytes := [];
      if n == 0 { return Success, bytes; }
      while |bytes| < n
        invariant Valid() && Writable() && (view == old(view) || fresh(view))
        invariant |bytes| <= n && inSrcPos == old(inSrcPos) + |bytes|
        invariant bytes == source.content[old(inSrcPos)..inSrcPos]
        invariant highest == if inSrcPos > old(highest) then inSrcPos else old(highest)
        decreases |source.content| - inSrcPos, |source.content| - source.pos
      {
        ghost var head := inSrcPos;
        var piece;
        code, piece := ReadChunk(n - |bytes|);
        SlicesJoin(source.content, old(inSrcPos), head, inSrcPos);
        bytes := bytes + piece;
        if code == EndOfFile { break; }
      }
      code := if bytes == [] then EndOfFile else Success;
    }

    /** Reads what the buffer holds up to the next delimiter, without touching the source. */
    method ReadBufferedToDelimiter(delim: byte, keepDelimiter: bool, ghost k: nat)
      returns (appended: seq<byte>, foundDelim: bool)
      requires Valid() && k == FindDelim(source.content, delim, inSrcPos)
      modifies this`inSrcPos, this`highest, view
      ensures Valid() && BufferEnd() == old(BufferEnd()) && source.pos == old(source.pos)
      ensures foundDelim == (k < BufferEnd())
      ensures inSrcPos == if foundDelim then k + 1 else BufferEnd()
      ensures appended == source.content[old(inSrcPos)..(if foundDelim && !keepDelimiter then k else inSrcPos)]
      ensures highest == if inSrcPos > old(highest) then inSrcPos else old(highest)
    {
      WindowRead(source.content, delim, bufferBegin, source.pos, view.pos, keepDelimiter);
      var code, count;
      code, appended, foundDelim, count := view.TryReadToDelimiter(delim, keepDelimiter);
      UpdateInSrcPos(inSrcPos + count);
    }

    /** One turn of the delimiter loop: reads what is buffered, then refills if no delimiter was found. */
    method ReadChunkToDelimiter(delim: byte, keepDelimiter: bool, ghost k: nat)
      returns (code: ErrorCode, appended: seq<byte>, foundDelim: bool)
      requires Valid() && Writable() && k == FindDelim(source.content, delim, inSrcPos)
      modifies this`inSrcPos, this`highest, this`buffer, this`view, this`bufferBegin, view, source
      ensures (view == old(view) || fresh(view)) && Valid() && Writable()
      ensures old(inSrcPos) <= inSrcPos <= |source.content|
      ensures if foundDelim then k < |source.content| && inSrcPos == k + 1 else inSrcPos <= k
      ensures appended == source.content[old(inSrcPos)..(if foundDelim && !keepDelimiter then k else inSrcPos)]
      ensures highest == if inSrcPos > old(highest) then inSrcPos else old(highest)
      ensures !foundDelim ==> k == FindDelim(source.content, delim, inSrcPos)
      ensures !foundDelim ==> if code == EndOfFile then inSrcPos == |source.content| else source.pos > old(source.pos)
    {
      ghost var head := inSrcPos;
      appended, foundDelim := ReadBufferedToDelimiter(delim, keepDelimiter, k);
      if foundDelim { return Success, appended, foundDelim; }
      FindDelimFromLater(source.content, delim, head, inSrcPos);
      ghost var asked;
      code, asked := RefillReaderBuffer(baseSize);
    }

    /** Reads up to the next delimiter of the source, wherever the buffer's boundaries fall. */
    method TryReadToDelimiter(delim: byte, keepDelimiter: bool, append: bool, str: seq<byte>)
      returns (code: ErrorCode, text: seq<byte>)
      requires Valid() && Writable()
      modifies this`inSrcPos, this`highest, this`buffer, this`view, this`bufferBegin, view, source
      ensures (view == old(view) || fresh(view)) && Valid() && Writable()
      ensures old(inSrcPos) <= |source.content|
      ensures var k := FindDelim(source.content, delim, old(inSrcPos));
              && inSrcPos == (if k < |source.content| then k + 1 else k)
              && var read := source.content[old(inSrcPos)..(if keepDelimiter then inSrcPos else k)];
                 text == if append then str + read else read
      ensures highest == if inSrcPos > old(highest) then inSrcPos else old(highest)
      ensures code == if old(inSrcPos) == |source.content| then EndOfFile else Success
    {
      text := if append then str else [];
      ghost var before := text;
      var start := inSrcPos;
      ghost var k := FindDelim(source.content, delim, start);
      assert before + source.content[start..start] == before;
      assert forall x: seq<byte> {:trigger before + x} :: !append ==> before + x == x;
      while true
        invariant Valid() && Writable() && (view == old(view) || fresh(view))
        invariant start <= inSrcPos <= k && k == FindDelim(source.content, delim, inSrcPos)
        invariant text == before + source.content[start..inSrcPos]
        invariant highest == if inSrcPos > old(highest) then inSrcPos else old(highest)
        decreases |source.content| - source.pos
      {
        ghost var head := inSrcPos;
        var appended, foundDelim;
        code, appended, foundDelim := ReadChunkToDelimiter(delim, keepDelimiter, k);
        TextJoins(before, source.content, start, head, if foundDelim && !keepDelimiter then k else inSrcPos);
        text := text + appended;
        if foundDelim { return Success, text; }
        if code == EndOfFile {
          code := if inSrcPos == start then EndOfFile else Success;
          return;
        }
      }
    }

    /** What a user of the reader can tell about it. */
    function View(): Plain
      reads this
    {
      Plain(inSrcPos, checkpoint, highest)
    }

    /** The operation would refill a buffer that has no room, or lose the reader's place. */
    predicate Hazard(op: Op)
      reads this, view
    {
      match op
      case Read(n) => n > 0 && !Writable()
      case ReadToDelimiter(_, _) => !Writable()
      case RefillIfEmpty => !Writable()
      case PeekByte => !Writable()
      case Seek(p) => checkpoint.Some? && p > |source.content| && inSrcPos != BufferEnd()
      case _ => false
    }

    method PerformRead(op: Op) returns (out: Output)
      requires Valid() && !Hazard(op) && (op.Read? || op.ReadToDelimiter?)
      modifies this`inSrcPos, this`highest, this`buffer, this`view, this`bufferBegin, view, source
      ensures (view == old(view) || fresh(view)) && Valid()
      ensures (View(), out) == PlainStep(source.content, old(View()), op)
    {
      ghost var start := View();
      if op.Read? {
        var code, bytes := TryRead(op.n);
        out := Data(code, bytes);
        assert View() == start.MoveTo(inSrcPos);
      } else {
        var code, bytes := TryReadToDelimiter(op.delim, op.keepDelimiter, false, []);
        out := Data(code, bytes);
        assert View() == start.MoveTo(inSrcPos);
      }
    }

    /** Outside the two hazards every operation does what it would do on the plain source. */
    method Perform(op: Op) returns (out: Output)
      requires Valid() && !Hazard(op)
      modifies this, view, source
      ensures (view == old(view) || fresh(view)) && Valid()
      ensures (View(), out) == PlainStep(source.content, old(View()), op)
    {
      if op.Read? || op.ReadToDelimiter? {
        out := PerformRead(op);
      } else if op.Seek? {
        var code := TrySeekFromBegin(op.p);
        out := Moved(code);
      } else if op.SetCheckpoint? {
        var pos := SetCheckpoint();
        out := At(pos);
      } else if op.ClearCheckpoint? {
        ClearCheckpoint();
        out := Nothing;
      } else if op.RefillIfEmpty? {
        var code := TryRefillBufferIfEmpty();
        out := Moved(code);
      } else {
        var code, data := RefillAndPeek();
        out := Data(code, if data == [] then [] else data[..1]);
        assert data != [] ==> data[..1] == source.content[inSrcPos..inSrcPos + 1];
      }
    }

    /** The state and the outputs after some operations are those of the plain source. */
    ghost predicate Replayed(start: Plain, ops: seq<Op>, outs: seq<Output>)
      reads this
    {
      View() == PlainState(source.content, start, ops) && outs == PlainOutputs(source.content, start, ops)
    }

    method ReplayNext(op: Op, ghost start: Plain, ghost ops: seq<Op>, outs: seq<Output>) returns (more: seq<Output>)
      requires Valid() && !Hazard(op) && Replayed(start, ops, outs)
      modifies this, view, source
      ensures (view == old(view) || fresh(view)) && Valid()
      ensures |more| == |outs| + 1 && Replayed(start, ops + [op], more)
    {
      PlainNext(source.content, start, ops, op);
      var out := Perform(op);
      more := outs + [out];
    }

    /** Runs operations until one is hazardous. What they return is what the plain source returns. */
    method Replay(ops: seq<Op>) returns (outs: seq<Output>)
      requires Valid()
      modifies this, view, source
      ensures (view == old(view) || fresh(view)) && Valid()
      ensures |outs| <= |ops| && outs == PlainOutputs(source.content, old(View()), ops[..|outs|])
      ensures View() == PlainState(source.content, old(View()), ops[..|outs|])
      ensures |outs| < |ops| ==> Hazard(ops[|outs|])
    {
      outs := [];
      while |outs| < |ops| && !Hazard(ops[|outs|])
        invariant Valid() && (view == old(view) || fresh(view)) && |outs| <= |ops|
        invariant Replayed(old(View()), ops[..|outs|], outs)
      {
        TakeNext(ops, |outs|);
        outs := ReplayNext(ops[|outs|], old(View()), ops[..|outs|], outs);
      }
    }

    /** The promise of a checkpoint: whatever is read or sought while it stands, up to a hazard, every
        position from it on can be sought and read again. */
    method ReturnToCheckpoint(ops: seq<Op>, p: nat, n: nat)
        returns (outs: seq<Output>, moved: Output, again: Output)
      requires Valid() && checkpoint.Some? && checkpoint.value <= p <= |source.content|
      requires forall i :: 0 <= i < |ops| ==> !ops[i].SetCheckpoint? && !ops[i].ClearCheckpoint?
      modifies this, view, source
      ensures (view == old(view) || fresh(view)) && Valid() && checkpoint == old(checkpoint)
      ensures |outs| <= |ops| && outs == PlainOutputs(source.content, old(View()), ops[..|outs|])
      ensures moved == Moved(Success) && inSrcPos == p + Min(n, |source.content| - p)
      ensures again.Data? && again.bytes == source.content[p..inSrcPos]
    {
      outs := Replay(ops);
      CheckpointStands(source.content, old(View()), ops[..|outs|], p, n);
      moved := Perform(Seek(p));
      again := Perform(Read(n));
    }
  }

  datatype Op =
    | Read(n: nat)
    | ReadToDelimiter(delim: byte, keepDelimiter: bool)
    | Seek(p: nat)
    | SetCheckpoint
    | ClearCheckpoint
    | RefillIfEmpty
    | PeekByte

  datatype Output = Data(code: ErrorCode, bytes: seq<byte>) | Moved(code: ErrorCode) | At(pos: nat) | Nothing

  /** The plain source: a position, a checkpoint and the highest position reached. */
  datatype Plain = Plain(pos: nat, checkpoint: Option<nat>, highest: nat) {
    function MoveTo(p: nat): Plain {
      this.(pos := p, highest := if p > highest then p else highest)
    }

    predicate Valid(content: seq<byte>) {
      pos <= highest <= |content| && (checkpoint.Some? ==> checkpoint.value <= pos)
    }
  }

  /** What each operation means on the plain source, with no buffer in sight. */
  function PlainStep(content: seq<byte>, s: Plain, op: Op): (Plain, Output) {
    match op
    case Read(n) =>
      if s.pos > |content| then (s, Nothing)
      else
        var end := s.pos + Min(n, |content| - s.pos);
        (s.MoveTo(end), Data(if n > 0 && end == s.pos then EndOfFile else Success, content[s.pos..end]))
    case ReadToDelimiter(delim, keep) =>
      if s.pos > |content| then (s, Nothing)
      else
        var k := FindDelim(content, delim, s.pos);
        var end := if k < |content| then k + 1 else k;
        (s.MoveTo(end),
         Data(if s.pos == |content| then EndOfFile else Success, content[s.pos..(if keep then end else k)]))
    case Seek(p) =>
      if p == s.pos then (s, Moved(Success))
      else if p < (if s.checkpoint.Some? then s.checkpoint.value else s.pos) then (s, Moved(Unsupported))
      else if p <= |content| then (s.MoveTo(p), Moved(Success))
      else (s, Moved(Truncated))
    case SetCheckpoint => (s.(checkpoint := Some(s.pos)), At(s.pos))
    case ClearCheckpoint => (Plain(s.highest, None, s.highest), Nothing)
    case RefillIfEmpty => (s, Moved(if s.pos == |content| then EndOfFile else Success))
    case PeekByte =>
      if s.pos < |content| then (s, Data(Success, content[s.pos..s.pos + 1])) else (s, Data(EndOfFile, []))
  }

  function PlainState(content: seq<byte>, s: Plain, ops: seq<Op>): Plain {
    if ops == [] then s
    else PlainStep(content, PlainState(content, s, ops[..|ops| - 1]), ops[|ops| - 1]).0
  }

  function PlainOutputs(content: seq<byte>, s: Plain, ops: seq<Op>): seq<Output> {
    if ops == [] then []
    else
      var front := ops[..|ops| - 1];
      PlainOutputs(content, s, front) + [PlainStep(content, PlainState(content, s, front), ops[|ops| - 1]).1]
  }

  lemma PlainNext(content: seq<byte>, s: Plain, ops: seq<Op>, op: Op)
    ensures var (next, out) := PlainStep(content, PlainState(content, s, ops), op);
            && PlainState(content, s, ops + [op]) == next
            && PlainOutputs(content, s, ops + [op]) == PlainOutputs(content, s, ops) + [out]
  {
    LastOfPush(ops, op);
  }

  lemma {:induction false} PlainStaysValid(content: seq<byte>, s: Plain, ops: seq<Op>)
    requires s.Valid(content)
    ensures PlainState(content, s, ops).Valid(content)
    decreases |ops|
  {
    if ops != [] { PlainStaysValid(content, s, ops[..|ops| - 1]); }
  }

  /** While a checkpoint stands, every position from it to the end of the source can be sought and
      read again, whatever was read or sought in between. */
  lemma {:induction false} CheckpointStands(content: seq<byte>, s: Plain, ops: seq<Op>, p: nat, n: nat)
    requires s.Valid(content) && s.checkpoint.Some? && s.checkpoint.value <= p <= |content|
    requires forall i :: 0 <= i < |ops| ==> !ops[i].SetCheckpoint? && !ops[i].ClearCheckpoint?
    ensures var t := PlainState(content, s, ops);
            var (u, moved) := PlainStep(content, t, Seek(p));
            && t.checkpoint == s.checkpoint
            && moved == Moved(Success) && u.pos == p
            && PlainStep(content, u, Read(n)).1.Data?
            && PlainStep(content, u, Read(n)).1.bytes == content[p..p + Min(n, |content| - p)]
    decreases |ops|
  {
    PlainStaysValid(content, s, ops);
    if ops != [] { CheckpointStands(content, s, ops[..|ops| - 1], p, n); }
  }

  lemma StepRaisesHighest(content: seq<byte>, s: Plain, op: Op)
    requires s.Valid(content)
    ensures var t := PlainStep(content, s, op).0;
            t.highest == if t.pos > s.highest then t.pos else s.highest
  {
  }

  /** The highest position, where clearing a checkpoint leaves the head, is the furthest point the
      run was at: no prefix of the run ended beyond it ... */
  lemma {:induction false} NothingBeyondHighest(content: seq<byte>, s: Plain, ops: seq<Op>, i: nat)
    requires s.Valid(content) && i <= |ops|
    ensures PlainState(content, s, ops[..i]).pos <= PlainState(content, s, ops).highest
    decreases |ops|
  {
    PlainStaysValid(content, s, ops);
    if i == |ops| {
      assert ops[..i] == ops;
    } else {
      var front := ops[..|ops| - 1];
      NothingBeyondHighest(content, s, front, i);
      assert front[..i] == ops[..i];
      PlainStaysValid(content, s, front);
      StepRaisesHighest(content, PlainState(content, s, front), ops[|ops| - 1]);
    }
  }

  /** ... and unless it never rose, some prefix ended there. */
  lemma {:induction false} HighestWasReached(content: seq<byte>, s: Plain, ops: seq<Op>) returns (j: nat)
    requires s.Valid(content)
    ensures j <= |ops|
    ensures PlainState(content, s, ops).highest == s.highest
            || PlainState(content, s, ops[..j]).pos == PlainState(content, s, ops).highest
    decreases |ops|
  {
    j := |ops|;
    assert ops[..j] == ops;
    if ops != [] {
      var front := ops[..|ops| - 1];
      PlainStaysValid(content, s, front);
      StepRaisesHighest(content, PlainState(content, s, front), ops[|ops| - 1]);
      if PlainState(content, s, ops).highest == PlainState(content, s, front).highest {
        j := HighestWasReached(content, s, front);
        assert front[..j] == ops[..j];
      }
    }
  }

  /** Builds a reader, refusing buffer sizes that are not whole pages. */
  method Create(source: ByteSource, baseSize: nat) returns (r: Result<Reader, ErrorCode>)
    requires source.Valid() && baseSize > 0
    ensures r.Ok? <==> baseSize % MIN_BUFFER_SIZE == 0
    ensures r.Err? ==> r.error == BadParam
    ensures r.Ok? ==> fresh(r.value) && fresh(r.value.view) && r.value.source == source && r.value.baseSize == baseSize
    ensures r.Ok? ==> r.value.Writable() && r.value.View() == Plain(source.pos, None, source.pos)
    ensures r.Ok? ==> (r.value.Valid() <==> source.pos == 0)
  {
    if baseSize % MIN_BUFFER_SIZE != 0 { return Err(BadParam); }
    var reader := new Reader(source, baseSize);
    r := Ok(reader);
  }

  /** A reader that has buffered the start of its source. */
  method BufferedAtStart(content: seq<byte>, baseSize: nat) returns (reader: Reader)
    requires content != [] && baseSize > 0
    ensures fresh(reader) && fresh(reader.view) && fresh(reader.source)
    ensures reader.Valid() && reader.Writable() && reader.source.content == content
    ensures reader.checkpoint.None? && reader.inSrcPos == reader.highest == 0
    ensures reader.BufferEnd() == Min(baseSize, |content|)
  {
    var source := new ByteSource(content);
    reader := new Reader(source, baseSize);
    var code := reader.TryRefillBufferIfEmpty();
  }

  /** The same reader with a checkpoint at the start. */
  method CheckpointedAtStart(content: seq<byte>, baseSize: nat) returns (reader: Reader)
    requires content != [] && baseSize > 0
    ensures fresh(reader) && fresh(reader.view) && fresh(reader.source)
    ensures reader.Valid() && reader.source.content == content
    ensures reader.checkpoint == Some(0) && reader.inSrcPos == reader.highest == 0
    ensures reader.BufferEnd() == Min(baseSize, |content|)
  {
    reader := BufferedAtStart(content, baseSize);
    var pos := reader.SetCheckpoint();
  }

  /** A failed seek past the end, with a checkpoint set and unread data buffered, loses the place. */
  method FailedSeekLosesPlace(content: seq<byte>, baseSize: nat, target: nat) returns (reader: Reader, code: ErrorCode)
    requires content != [] && baseSize > 0 && target > |content|
    ensures reader.ValidBuffer() && !reader.InSync()
    ensures code != Success && reader.View() == Plain(0, Some(0), 0)
  {
    reader := CheckpointedAtStart(content, baseSize);
    code := reader.TrySeekFromBegin(target);
  }

  /** A reader whose head is at the end of the buffered data, with a checkpoint at the start. */
  method ReadToBufferEnd(content: seq<byte>, baseSize: nat) returns (reader: Reader)
    requires |content| > baseSize > 0
    ensures fresh(reader) && fresh(reader.view) && fresh(reader.source)
    ensures reader.Valid() && reader.source.content == content && reader.checkpoint.Some?
    ensures reader.highest == reader.BufferEnd() == baseSize
  {
    reader := CheckpointedAtStart(content, baseSize);
    var code := reader.TrySeekFromBegin(baseSize);
  }

  /** Clearing a checkpoint with the head at the end of the buffered data leaves no room to refill,
      even though the source has more. */
  method ClearAtBufferEndLeavesNoRoom(content: seq<byte>, baseSize: nat) returns (reader: Reader)
    requires |content| > baseSize > 0
    ensures reader.Valid() && !reader.Writable() && reader.Hazard(Read(1))
    ensures reader.inSrcPos < |reader.source.content|
  {
    reader := ReadToBufferEnd(content, baseSize);
    reader.ClearCheckpoint();
  }
}
