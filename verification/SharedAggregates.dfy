/** The shared buffer in which parallel workers combine their aggregation results.

    Results are appended as length-prefixed frames.  When the buffer is full, or the result for the
    last segment arrives, all frames are merged in place into a single one. */
module SharedAggregates {
  import opened Options

  newtype byte = x: int | 0 <= x < 256

  /** The size of a length prefix, a little-endian 64-bit integer. */
  const PREFIX: nat := 8
  const USIZE: nat := 0x1_0000_0000_0000_0000

  // ---------- Length prefixes ----------

  function Pow256(k: nat): nat {
    if k == 0 then 1 else 256 * Pow256(k - 1)
  }

  function LeBytes(n: nat, k: nat): (r: seq<byte>)
    ensures |r| == k
  {
    if k == 0 then [] else [(n % 256) as byte] + LeBytes(n / 256, k - 1)
  }

  function FromLe(bytes: seq<byte>): nat {
    if bytes == [] then 0 else bytes[0] as nat + 256 * FromLe(bytes[1..])
  }

  /** The low byte comes first. */
  lemma LowByteFirst(low: byte, high: nat, k: nat)
    ensures LeBytes(low as nat + 256 * high, k + 1) == [low] + LeBytes(high, k)
  {
  }

  lemma {:induction false} LeRoundTrip(n: nat, k: nat)
    requires n < Pow256(k)
    ensures FromLe(LeBytes(n, k)) == n
  {
    if k > 0 {
      LeRoundTrip(n / 256, k - 1);
      assert LeBytes(n, k)[1..] == LeBytes(n / 256, k - 1);
    }
  }

  lemma PrefixRoundTrip(n: nat)
    requires n < USIZE
    ensures FromLe(LeBytes(n, 8)) == n
  {
    assert Pow256(2) == 0x1_0000;
    assert Pow256(4) == 256 * (256 * Pow256(2));
    assert Pow256(6) == 256 * (256 * Pow256(4));
    assert Pow256(8) == 256 * (256 * Pow256(6));
    LeRoundTrip(n, PREFIX);
  }

  // ---------- Results ----------

  /** How results are serialized and merged. */
  datatype Codec<!R> = Codec(serialize: R -> seq<byte>, deserialize: seq<byte> -> Option<R>, merge: (R, R) -> R)

  /** Serialization can be undone, and merging is associative and commutative. */
  ghost predicate Lawful<R(!new)>(c: Codec<R>) {
    && (forall r :: c.deserialize(c.serialize(r)) == Some(r))
    && (forall x, y, z :: c.merge(c.merge(x, y), z) == c.merge(x, c.merge(y, z)))
    && (forall x, y :: c.merge(x, y) == c.merge(y, x))
  }

  /** Merge results into an accumulator, one after the other. */
  function MergeInto<R>(c: Codec<R>, acc: R, rs: seq<R>): R {
    if rs == [] then acc else MergeInto(c, c.merge(acc, rs[0]), rs[1..])
  }

  function MergeAll<R>(c: Codec<R>, rs: seq<R>): R
    requires rs != []
  {
    MergeInto(c, rs[0], rs[1..])
  }

  lemma {:induction false} MergeIntoAppend<R>(c: Codec<R>, acc: R, rs: seq<R>, r: R)
    ensures MergeInto(c, acc, rs + [r]) == c.merge(MergeInto(c, acc, rs), r)
  {
    if rs == [] {
      assert [r][1..] == [];
    } else {
      assert (rs + [r])[1..] == rs[1..] + [r];
      MergeIntoAppend(c, c.merge(acc, rs[0]), rs[1..], r);
    }
  }

  lemma {:induction false} MergeIntoIsMerge<R(!new)>(c: Codec<R>, acc: R, rs: seq<R>)
    requires Lawful(c) && rs != []
    ensures MergeInto(c, acc, rs) == c.merge(acc, MergeAll(c, rs))
  {
    var n := |rs| - 1;
    assert rs == rs[..n] + [rs[n]];
    MergeIntoAppend(c, acc, rs[..n], rs[n]);
    if n > 0 {
      MergeIntoIsMerge(c, acc, rs[..n]);
      assert rs[1..] == rs[..n][1..] + [rs[n]];
      MergeIntoAppend(c, rs[0], rs[..n][1..], rs[n]);
    }
  }

  /** Whatever order the results are merged in, adding one more is merging with what there was. */
  lemma MergeAllAppend<R(!new)>(c: Codec<R>, rs: seq<R>, r: R)
    requires Lawful(c)
    ensures MergeAll(c, rs + [r]) == if rs == [] then r else MergeInto(c, r, rs)
  {
    if rs == [] {
      assert ([] + [r])[1..] == [];
    } else {
      assert (rs + [r])[1..] == rs[1..] + [r];
      MergeIntoAppend(c, rs[0], rs[1..], r);
      MergeIntoIsMerge(c, r, rs);
    }
  }

  // ---------- Frames ----------

  function Frame<R>(c: Codec<R>, r: R): seq<byte> {
    LeBytes(|c.serialize(r)|, PREFIX) + c.serialize(r)
  }

  function Frames<R>(c: Codec<R>, rs: seq<R>): seq<byte> {
    if rs == [] then [] else Frame(c, rs[0]) + Frames(c, rs[1..])
  }

  lemma {:induction false} FramesAppend<R>(c: Codec<R>, rs: seq<R>, r: R)
    ensures Frames(c, rs + [r]) == Frames(c, rs) + Frame(c, r)
  {
    if rs == [] {
      assert Frames(c, [r]) == Frame(c, r) + Frames(c, [][..]);
    } else {
      assert (rs + [r])[1..] == rs[1..] + [r];
      FramesAppend(c, rs[1..], r);
    }
  }

  lemma Cut(a: seq<byte>, b: seq<byte>, d: seq<byte>)
    ensures var all := (a + b) + d;
            all[..|a|] == a && all[|a|..|a| + |b|] == b && all[|a| + |b|..] == d
  {
  }

  /** The first frame can be cut off knowing only the bytes. */
  lemma FirstFrame<R>(c: Codec<R>, rs: seq<R>)
    requires rs != [] && |c.serialize(rs[0])| < USIZE
    ensures var bytes, len := Frames(c, rs), |c.serialize(rs[0])|;
            && 8 + len <= |bytes|
            && FromLe(bytes[..8]) == len
            && bytes[8..8 + len] == c.serialize(rs[0])
            && bytes[8 + len..] == Frames(c, rs[1..])
  {
    var payload := c.serialize(rs[0]);
    PrefixRoundTrip(|payload|);
    Cut(LeBytes(|payload|, PREFIX), payload, Frames(c, rs[1..]));
  }

  lemma {:induction false} FramesAreSmall<R>(c: Codec<R>, rs: seq<R>, k: nat)
    requires k < |rs|
    ensures |c.serialize(rs[k])| <= |Frames(c, rs)|
  {
    if k > 0 {
      FramesAreSmall(c, rs[1..], k - 1);
    }
  }

  lemma PrefixOfPrefix(bytes: seq<byte>, n: nat, a: nat, b: nat)
    requires a + b <= n <= |bytes|
    ensures bytes[..n][..a] == bytes[..a] && bytes[..n][a..a + b] == bytes[a..a + b]
  {
  }

  /** The same at an offset into a run of frames. */
  lemma NextFrame<R>(c: Codec<R>, rs: seq<R>, k: nat, bytes: seq<byte>, offset: nat)
    requires k < |rs| && offset <= |bytes| < USIZE && bytes[offset..] == Frames(c, rs[k..])
    ensures var len := |c.serialize(rs[k])|;
            && offset + 8 + len <= |bytes|
            && FromLe(bytes[offset..offset + 8]) == len
            && bytes[offset + 8..offset + 8 + len] == c.serialize(rs[k])
            && bytes[offset + 8 + len..] == Frames(c, rs[k + 1..])
  {
    var rest, len := rs[k..], |c.serialize(rs[k])|;
    FramesAreSmall(c, rest, 0);
    FirstFrame(c, rest);
    assert rest[1..] == rs[k + 1..];
    Slices(bytes, offset, PREFIX, len);
  }

  lemma Slices(bytes: seq<byte>, offset: nat, a: nat, b: nat)
    requires offset + a + b <= |bytes|
    ensures bytes[offset..][..a] == bytes[offset..offset + a]
    ensures bytes[offset..][a..a + b] == bytes[offset + a..offset + a + b]
    ensures bytes[offset..][a + b..] == bytes[offset + a + b..]
  {
  }

  /** Decode every frame and merge it into `result`. */
  method MergeFrames<R(!new)>(c: Codec<R>, bytes: seq<byte>, result: R, ghost rs: seq<R>) returns (merged: R)
    requires Lawful(c) && |bytes| < USIZE && bytes == Frames(c, rs)
    ensures merged == MergeInto(c, result, rs)
  {
    merged := result;
    var offset := 0;
    ghost var k := 0;
    while offset < |bytes|
      invariant k <= |rs| && offset <= |bytes|
      invariant bytes[offset..] == Frames(c, rs[k..])
      invariant MergeInto(c, merged, rs[k..]) == MergeInto(c, result, rs)
    {
      NextFrame(c, rs, k, bytes, offset);
      var lenEnd := offset + PREFIX;
      var len := FromLe(bytes[offset..lenEnd]);
      var res := c.deserialize(bytes[lenEnd..lenEnd + len]);
      merged := c.merge(merged, res.value);
      assert rs[k..][1..] == rs[k + 1..];
      offset, k := lenEnd + len, k + 1;
    }
    NoFrames(c, rs[k..]);
  }

  lemma NoFrames<R>(c: Codec<R>, rs: seq<R>)
    ensures Frames(c, rs) == [] <==> rs == []
  {
  }

  // ---------- The shared state ----------

  datatype WaitResult<R> = NotReady | Panicked | Ready(value: R)

  /** `copy_from_slice` into a stretch of the buffer. */
  method CopyInto(a: array<byte>, at: nat, bytes: seq<byte>)
    requires at + |bytes| <= a.Length
    modifies a
    ensures a[..at] == old(a[..at]) && a[at..at + |bytes|] == bytes
  {
    for k := 0 to |bytes|
      invariant a[..at] == old(a[..at])
      invariant a[at..at + k] == bytes[..k]
    {
      a[at + k] := bytes[k];
      assert a[at..at + k + 1] == a[at..at + k] + [bytes[k]];
    }
  }

  class ParallelAggregates<R(!new)> {
    const codec: Codec<R>
    const nsegments: nat
    const maxResponseBytes: nat
    const buffer: array<byte>
    var watermark: nat
    var receivedCount: nat
    ghost var frames: seq<R>
    ghost var appended: seq<R>

    /** The bytes below the watermark are well-formed frames. */
    ghost predicate Framed()
      reads this, buffer
    {
      && Lawful(codec) && buffer.Length < USIZE
      && watermark <= buffer.Length
      && buffer[..watermark] == Frames(codec, frames)
    }

    /** As long as no append has failed, the merge of the frames is the merge of everything appended,
        and once all segments have reported there is exactly one frame. */
    ghost predicate Valid()
      reads this, buffer
    {
      && Framed()
      && StandFor(codec, frames, appended)
      && (receivedCount == nsegments && appended != [] ==> |frames| == 1)
    }

    constructor (codec: Codec<R>, nsegments: nat, maxResponseBytes: nat)
      requires Lawful(codec) && maxResponseBytes < USIZE
      ensures Valid() && appended == [] && receivedCount == 0 && fresh(buffer)
      ensures this.codec == codec && this.nsegments == nsegments && this.maxResponseBytes == maxResponseBytes
      ensures buffer.Length == maxResponseBytes
    {
      this.codec, this.nsegments, this.maxResponseBytes := codec, nsegments, maxResponseBytes;
      buffer := new byte[maxResponseBytes];
      watermark, receivedCount, frames, appended := 0, 0, [], [];
    }

    /** What merging everything, with one more result, serializes to. */
    ghost function Compacted(result: R): R
      reads this
    {
      MergeInto(codec, result, frames)
    }

    ghost predicate TooLong(result: R)
      reads this
    {
      |codec.serialize(result)| >= maxResponseBytes
    }

    /** The result is simply written: there is room, and it is not for the last segments. */
    ghost predicate Room(result: R, segmentCount: nat)
      reads this
    {
      watermark + 8 + |codec.serialize(result)| <= buffer.Length && receivedCount + segmentCount != nsegments
    }

    /** Exactly when appending does not panic: the result passes the length check, and either it is
        simply written, or the merged result also fits with its prefix. */
    ghost predicate Fits(result: R, segmentCount: nat)
      reads this
    {
      && !TooLong(result)
      && (Room(result, segmentCount) ||
          (!TooLong(Compacted(result)) && 8 + |codec.serialize(Compacted(result))| <= buffer.Length))
    }

    /** Write one frame at the watermark. */
    method WriteFrame(result: R)
      requires watermark + 8 + |codec.serialize(result)| <= buffer.Length
      modifies buffer, this`watermark
      ensures watermark == old(watermark) + 8 + |codec.serialize(result)|
      ensures buffer[..watermark] == old(buffer[..watermark]) + Frame(codec, result)
    {
      var serialized := codec.serialize(result);
      var lenBytes := LeBytes(|serialized|, PREFIX);
      CopyInto(buffer, watermark, lenBytes);
      var dataStart := watermark + PREFIX;
      assert buffer[..dataStart] == buffer[..watermark] + buffer[watermark..dataStart];
      CopyInto(buffer, dataStart, serialized);
      assert buffer[..dataStart + |serialized|] == buffer[..dataStart] + buffer[dataStart..dataStart + |serialized|];
      watermark := dataStart + |serialized|;
    }

    /** Merge all frames and one more result into a single frame, in place. A merged result that is too
        long is noticed before anything is changed, one without room for its prefix only after. */
    method Compact(result: R) returns (ok: bool)
      requires Framed()
      modifies this`watermark, buffer
      ensures ok <==> old(!TooLong(Compacted(result)) && 8 + |codec.serialize(Compacted(result))| <= buffer.Length)
      ensures ok ==> watermark <= buffer.Length && buffer[..watermark] == Frames(codec, [old(Compacted(result))])
      ensures old(TooLong(Compacted(result))) ==> watermark == old(watermark) && buffer[..] == old(buffer[..])
      ensures !ok && !old(TooLong(Compacted(result))) ==>
                && watermark == 0
                && (8 <= buffer.Length ==> buffer[..8] == LeBytes(old(|codec.serialize(Compacted(result))|), 8))
    {
      var merged := MergeFrames(codec, buffer[..watermark], result, frames);
      var mergedLen := |codec.serialize(merged)|;
      if mergedLen >= maxResponseBytes {
        return false;
      }
      watermark := 0;
      if PREFIX + mergedLen > buffer.Length {
        if PREFIX <= buffer.Length {
          CopyInto(buffer, 0, LeBytes(mergedLen, PREFIX));
          assert buffer[..PREFIX] == buffer[0..0 + PREFIX];
        }
        return false;
      }
      WriteFrame(merged);
      assert Frames(codec, [merged]) == Frame(codec, merged) + Frames(codec, [merged][1..]);
      ok := true;
    }

    /** Append a result that stands for `segmentCount` segments; `ok` is false when it panics. Then
        the frames are kept, or lost if there was no room for the prefix, but unless it is the first
        length check that failed, the segments count as reported. */
    method Append(result: R, segmentCount: nat) returns (ok: bool)
      requires Framed()
      modifies this, buffer
      ensures Framed() && (ok <==> old(Fits(result, segmentCount)))
      ensures receivedCount == old(receivedCount) + if old(TooLong(result)) then 0 else segmentCount
      ensures appended == if ok then old(appended) + [result] else old(appended)
      ensures ok ==>
                frames == if old(Room(result, segmentCount)) then old(frames) + [result] else [old(Compacted(result))]
      ensures !ok ==> frames == if old(TooLong(result) || TooLong(Compacted(result))) then old(frames) else []
      ensures ok && old(Valid()) ==> Valid()
      ensures ok && old(Valid()) && receivedCount == nsegments ==> frames == [MergeAll(codec, appended)]
    {
      var resultLen := |codec.serialize(result)|;
      if resultLen >= maxResponseBytes {
        return false;
      }
      var bufferFull := watermark + PREFIX + resultLen > buffer.Length;
      receivedCount := receivedCount + segmentCount;
      var allReceived := receivedCount == nsegments;
      ghost var merged := Compacted(result);
      if StandFor(codec, frames, appended) {
        StandForMore(codec, frames, appended, result);
      }
      if !bufferFull && !allReceived {
        WriteFrame(result);
        FramesAppend(codec, frames, result);
        frames, appended := frames + [result], appended + [result];
        return true;
      }
      ok := Compact(result);
      if ok {
        frames, appended := [merged], appended + [result];
      } else if |codec.serialize(merged)| < maxResponseBytes {
        frames := [];
      }
    }

    /** One look at the shared state by a process waiting for the final result: once all segments
        count as reported, it takes the first frame. */
    method Poll() returns (r: WaitResult<R>)
      requires Framed()
      ensures receivedCount != nsegments ==> r == NotReady
      ensures receivedCount == nsegments ==> r == if frames == [] then Panicked else Ready(frames[0])
      ensures Valid() && receivedCount == nsegments ==>
                r == if appended == [] then Panicked else Ready(MergeAll(codec, appended))
    {
      if receivedCount != nsegments {
        return NotReady;
      }
      if watermark == 0 {
        NoFrames(codec, frames);
        return Panicked;
      }
      NoFrames(codec, frames);
      FramesAreSmall(codec, frames, 0);
      FirstFrame(codec, frames);
      PrefixOfPrefix(buffer[..], watermark, PREFIX, |codec.serialize(frames[0])|);
      var len := FromLe(buffer[..PREFIX]);
      var res := codec.deserialize(buffer[PREFIX..PREFIX + len]);
      r := Ready(res.value);
    }

    /** What a waiting process gets after a failed append: a result exactly if all segments count as
        reported and there are frames left, that is, if there were any and it was not the room for the
        prefix that was missing. It is then the first of the frames alone. */
    method PollAfterFailure(result: R, segmentCount: nat) returns (ok: bool, r: WaitResult<R>)
      requires Valid()
      modifies this, buffer
      ensures ok <==> old(Fits(result, segmentCount))
      ensures !ok ==>
                (r.Ready? <==>
                 && old(appended) != []
                 && old(if TooLong(result) then receivedCount == nsegments
                        else receivedCount + segmentCount == nsegments && TooLong(Compacted(result))))
      ensures !ok && r.Ready? ==> old(frames) != [] && r.value == old(frames)[0]
    {
      ok := Append(result, segmentCount);
      r := Poll();
    }
  }

  /** Frames that, merged, are everything appended. */
  ghost predicate StandFor<R>(c: Codec<R>, frames: seq<R>, appended: seq<R>) {
    && (appended == [] <==> frames == [])
    && (appended != [] ==> MergeAll(c, frames) == MergeAll(c, appended))
  }

  /** One more result changes the merge of the frames and of the history alike. */
  lemma SameTotal<R(!new)>(c: Codec<R>, frames: seq<R>, appended: seq<R>, result: R)
    requires Lawful(c) && StandFor(c, frames, appended)
    ensures MergeAll(c, frames + [result]) == MergeAll(c, appended + [result]) == MergeInto(c, result, frames)
    ensures MergeAll(c, [MergeInto(c, result, frames)]) == MergeInto(c, result, frames)
  {
    MergeAllAppend(c, frames, result);
    MergeAllAppend(c, appended, result);
    if frames != [] {
      MergeIntoIsMerge(c, result, frames);
      MergeIntoIsMerge(c, result, appended);
    }
    var merged := MergeInto(c, result, frames);
    assert [merged][1..] == [];
  }

  lemma StandForMore<R(!new)>(c: Codec<R>, frames: seq<R>, appended: seq<R>, result: R)
    requires Lawful(c) && StandFor(c, frames, appended)
    ensures StandFor(c, frames + [result], appended + [result])
    ensures StandFor(c, [MergeInto(c, result, frames)], appended + [result])
  {
    SameTotal(c, frames, appended, result);
  }

  /** A first result that passes the length check but does not fit with its prefix: 15 bytes where 16
      are allowed. */
  method PrefixDoesNotFit() returns (allowed: nat, length: nat, ok: bool)
    ensures length < allowed && !ok
  {
    var fifteen: bool -> seq<byte> := b => seq(15, _ => if b then 1 else 0);
    var codec := Codec(fifteen, bytes => if |bytes| == 15 then Some(bytes[0] == 1) else None, (x, y) => x || y);
    var shared := new ParallelAggregates(codec, 2, 16);
    allowed, length := shared.maxResponseBytes, |codec.serialize(true)|;
    ok := shared.Append(true, 1);
  }

  /** A result that is a number of documents, and is written as that many bytes. */
  datatype Count = Count(docs: nat)

  function CountCodec(): Codec<Count> {
    Codec(CountBytes, BytesCount, CountSum)
  }

  function CountBytes(c: Count): seq<byte> {
    seq(c.docs, _ => 1)
  }

  function BytesCount(bytes: seq<byte>): Option<Count> {
    Some(Count(|bytes|))
  }

  function CountSum(x: Count, y: Count): Count {
    Count(x.docs + y.docs)
  }

  lemma MergeTwo<R>(c: Codec<R>, acc: R, r: R)
    ensures MergeInto(c, acc, [r]) == c.merge(acc, r)
  {
    assert [r][1..] == [];
  }

  lemma CountCodecIsLawful()
    ensures Lawful(CountCodec())
  {
    forall c: Count
      ensures BytesCount(CountBytes(c)) == Some(c)
    {
      assert |CountBytes(c)| == c.docs;
    }
  }

  /** Two results of 10 and 25 bytes, for a segment each, where 30 are allowed: the merged result would
      have 35. The append fails, and yet a process that waits for both gets a result, without the
      second. */
  method FailedAppendIsPolled() returns (failed: bool, r: WaitResult<Count>)
    ensures failed && r == Ready(Count(10))
  {
    CountCodecIsLawful();
    var shared := new ParallelAggregates(CountCodec(), 2, 30);
    var first := shared.Append(Count(10), 1);
    assert first && shared.frames == [Count(10)];
    MergeTwo(CountCodec(), Count(25), Count(10));
    var ok: bool;
    ok, r := shared.PollAfterFailure(Count(25), 1);
    failed := !ok;
  }
}
