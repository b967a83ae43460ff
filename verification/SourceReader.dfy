/** Reading a stored source in chunks, and hashing its JSON encoding piece by piece. */
module SourceReader {
  import opened Wrappers
  import opened Cancellation
  import opened Utf8

  const SOURCE_CHUNK: nat := 64 * 1024

  datatype Error = BudgetExhausted | InvalidData | ReadFailed

  // ---- the input ----

  datatype Read = Count(count: nat) | Interrupted | Failed

  /** A source of bytes. Every read may return fewer bytes than asked for, be interrupted, or fail;
      interruptions bounds how often the former happens in a row. */
  class Input {
    const data: seq<byte>
    var position: nat
    var interruptions: nat
    /** Whether a read has failed. */
    ghost var failed: bool

    ghost predicate Valid()
      reads this
    {
      position <= |data|
    }

    constructor (data: seq<byte>, interruptions: nat)
      ensures Valid() && this.data == data && position == 0 && this.interruptions == interruptions && !failed
    {
      this.data := data;
      position, this.interruptions, failed := 0, interruptions, false;
    }

    /** Fills a prefix of the buffer. A count of zero means the end of the input. */
    method Read(buffer: array<byte>) returns (r: Read)
      requires Valid() && buffer.Length > 0
      modifies this, buffer
      ensures Valid()
      ensures r.Count? ==>
        && r.count <= buffer.Length && position == old(position) + r.count && interruptions == old(interruptions)
        && buffer[..r.count] == data[old(position)..position]
        && (r.count == 0 <==> old(position) == |data|)
      ensures !r.Count? ==> position == old(position)
      ensures r.Interrupted? ==> interruptions < old(interruptions)
      ensures failed == (old(failed) || r.Failed?)
    {
      var broken, interrupted := *, *;
      if broken {
        failed := true;
        return Failed;
      }
      if interrupted && interruptions > 0 {
        interruptions := interruptions - 1;
        return Interrupted;
      }
      var most := if |data| - position <= buffer.Length then |data| - position else buffer.Length;
      var count: nat :| count <= most && (most > 0 ==> count > 0);
      for i := 0 to count
        modifies buffer
        invariant forall k :: 0 <= k < i ==> buffer[k] == data[position + k]
      {
        buffer[i] := data[position + i];
      }
      assert buffer[..count] == data[position..position + count];
      position := position + count;
      return Count(count);
    }
  }

  // ---- reading ----

  /** What was read so far: decoded text and at most three bytes of an unfinished character. */
  ghost predicate Decoded(data: seq<byte>, position: nat, text: seq<byte>, pending: seq<byte>) {
    && position <= |data| && Utf8.Valid(text) && (pending == [] || IsPartial(pending))
    && text + pending == data[..position]
  }

  lemma Regroup<T>(a: seq<T>, b: seq<T>, n: nat)
    requires n <= |b|
    ensures (a + b[..n]) + b[n..] == a + b
  {
  }

  lemma TakeMore<T>(data: seq<T>, p: nat, q: nat)
    requires p <= q <= |data|
    ensures data[..q] == data[..p] + data[p..q] && data == data[..q] + data[q..]
  {
  }

  /** What is decoded and pending, plus the next chunk, is a longer prefix of the input. */
  lemma ChunkExtends<T>(data: seq<T>, p: nat, q: nat, text: seq<T>, pending: seq<T>, more: seq<T>)
    requires p <= q <= |data| && text + pending == data[..p] && more == pending + data[p..q]
    ensures text + more == data[..q] && data == text + (more + data[q..])
  {
    TakeMore(data, p, q);
    Associate(text, pending, data[p..q]);
    Associate(text, more, data[q..]);
  }

  lemma AnsweredPrefix(more: seq<byte>, n: nat)
    requires n <= |more| && CheckUtf8(more) == if n == |more| then AllValid else Incomplete(n)
    ensures Utf8.Valid(more[..n]) && (more[n..] == [] || IsPartial(more[n..]))
  {
    var p, q := CheckIsRight(more);
    assert more[..n] == p && more[n..] == q;
  }

  /** The next chunk extends the text up to the last finished character. */
  lemma ChunkDecoded(data: seq<byte>, p: nat, q: nat, text: seq<byte>, pending: seq<byte>, more: seq<byte>, n: nat)
    requires Decoded(data, p, text, pending) && p <= q <= |data| && more == pending + data[p..q]
    requires n <= |more| && CheckUtf8(more) == if n == |more| then AllValid else Incomplete(n)
    ensures Decoded(data, q, text + more[..n], more[n..])
  {
    AnsweredPrefix(more, n);
    ValidJoins(text, more[..n]);
    ChunkExtends(data, p, q, text, pending, more);
    Regroup(text, more, n);
  }

  /** A chunk that no continuation can repair makes the whole input invalid. */
  lemma ChunkHopeless(data: seq<byte>, p: nat, q: nat, text: seq<byte>, pending: seq<byte>, more: seq<byte>)
    requires Decoded(data, p, text, pending) && p <= q <= |data| && more == pending + data[p..q]
    requires CheckUtf8(more).Invalid?
    ensures !Utf8.Valid(data)
  {
    ChunkExtends(data, p, q, text, pending, more);
    HopelessStart(data, text, more, data[q..]);
  }

  lemma HopelessStart(data: seq<byte>, text: seq<byte>, more: seq<byte>, rest: seq<byte>)
    requires Utf8.Valid(text) && CheckUtf8(more).Invalid? && data == text + (more + rest)
    ensures !Utf8.Valid(data)
  {
    var p, q := CheckIsRight(more);
    HopelessJoins(p, q);
    ValidJoins(text, more + rest);
  }

  /** Ending inside a character makes the input invalid. */
  lemma EndIncomplete(data: seq<byte>, text: seq<byte>, pending: seq<byte>)
    requires Decoded(data, |data|, text, pending) && pending != []
    ensures !Utf8.Valid(data)
  {
    assert data[..|data|] == data;
    ValidJoins(text, pending);
    PartialIsNotValid(pending);
  }

  lemma DecodedSize(data: seq<byte>, position: nat, text: seq<byte>, pending: seq<byte>)
    requires Decoded(data, position, text, pending)
    ensures |text| + |pending| == position && |pending| <= 3
  {
    assert |text + pending| == position;
  }

  lemma AllDecoded(data: seq<byte>, text: seq<byte>)
    requires Decoded(data, |data|, text, [])
    ensures text == data && Utf8.Valid(data)
  {
    assert data[..|data|] == data && text + [] == text;
  }

  /** Moves the finished characters of one chunk to the text. */
  method DecodeChunk(ghost data: seq<byte>, ghost p: nat, ghost q: nat, text: seq<byte>, pending: seq<byte>, chunk: seq<byte>)
    returns (decoded: Option<(seq<byte>, seq<byte>)>)
    requires Decoded(data, p, text, pending) && p <= q <= |data| && chunk == data[p..q] && (chunk == [] <==> p == |data|)
    ensures decoded.Some? ==> Decoded(data, q, decoded.value.0, decoded.value.1) && (chunk == [] ==> decoded.value.1 == [])
    ensures decoded.None? ==> !Utf8.Valid(data)
  {
    var more := pending + chunk;
    var check := CheckUtf8(more);
    if check.Invalid? {
      ChunkHopeless(data, p, q, text, pending, more);
      return None;
    }
    var valid := |more|;
    if check.Incomplete? {
      if chunk == [] {
        assert more == pending;
        EndIncomplete(data, text, pending);
        return None;
      }
      ghost var done, started := CheckIsRight(more);
      valid := check.validUpTo;
    }
    ChunkDecoded(data, p, q, text, pending, more, valid);
    return Some((text + more[..valid], more[valid..]));
  }

  /** However the bytes are split, a read that neither stops nor fails succeeds exactly on valid UTF-8
      within the limit, and returns exactly those bytes. waited lists what was pending after each chunk. */
  method ReadSourceText(input: Input, maxBytes: nat, control: Control)
    returns (result: Result<seq<byte>, Error>, ghost waited: seq<nat>)
    requires input.Valid() && input.position == 0
    modifies input, control
    ensures result.Ok? ==> control.fired == old(control.fired) && input.failed == old(input.failed)
    ensures result.Ok? ==> result.value == input.data && |input.data| <= maxBytes && Utf8.Valid(input.data)
    ensures !control.fired && !input.failed ==> (result.Ok? <==> |input.data| <= maxBytes && Utf8.Valid(input.data))
    ensures result == Err(BudgetExhausted) && !control.fired ==> |input.data| > maxBytes
    ensures result == Err(InvalidData) ==> !Utf8.Valid(input.data)
    ensures result == Err(ReadFailed) ==> input.failed
    ensures forall i :: 0 <= i < |waited| ==> waited[i] <= 3
  {
    waited := [];
    var text: seq<byte>, pending: seq<byte> := [], [];
    var buffer := new byte[SOURCE_CHUNK];
    while true
      invariant control.fired == old(control.fired) && input.failed == old(input.failed)
      invariant input.Valid() && fresh(buffer)
      invariant forall i :: 0 <= i < |waited| ==> waited[i] <= 3
      invariant Decoded(input.data, input.position, text, pending) && input.position <= maxBytes
      decreases |input.data| - input.position, input.interruptions
    {
      var stop := control.Stopped();
      if stop { return Err(BudgetExhausted), waited; }
      ghost var position := input.position;
      var read := input.Read(buffer);
      if read.Interrupted? { continue; }
      if read.Failed? { return Err(ReadFailed), waited; }
      stop := control.Stopped();
      if stop { return Err(BudgetExhausted), waited; }
      DecodedSize(input.data, position, text, pending);
      if |text| + |pending| + read.count > maxBytes { return Err(BudgetExhausted), waited; }
      var decoded := DecodeChunk(input.data, position, input.position, text, pending, buffer[..read.count]);
      if decoded.None? { return Err(InvalidData), waited; }
      text, pending := decoded.value.0, decoded.value.1;
      DecodedSize(input.data, input.position, text, pending);
      waited := waited + [|pending|];
      if read.count == 0 {
        AllDecoded(input.data, text);
        return Ok(text), waited;
      }
    }
  }
}
