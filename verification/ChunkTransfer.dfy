/** The loops that move bytes (download.py): receiving one range with retries, into
    the shared staging file or a file of its own, and joining temporary files. */
module ChunkTransfer {
  import opened Collections
  import opened ChunkPlan
  import opened RangeChecks
  import opened TransferProtocol

  /** How a body ended: completely, by a transport or file error, which allows
      another attempt, or by any other exception, such as a lack of space. */
  datatype Ending = Complete | Lost | Aborted

  /** One attempt as the network makes it: no answer, a request that failed for any
      other reason than transport, or an answer whose body arrives in blocks. */
  datatype Attempt =
    | NoAnswer
    | Refused
    | Answer(response: Response, blocks: seq<seq<byte>>, ending: Ending)

  /** The blocks that are written: those before the first that passes the range's end. */
  function Accepted(blocks: seq<seq<byte>>, room: int): (data: seq<byte>)
    requires room >= 0
    ensures |data| <= room
  {
    if blocks == [] || |blocks[0]| > room then [] else blocks[0] + Accepted(blocks[1..], room - |blocks[0]|)
  }

  function Fits(blocks: seq<seq<byte>>, room: int): bool {
    blocks == [] || (|blocks[0]| <= room && Fits(blocks[1..], room - |blocks[0]|))
  }

  lemma {:induction false} AcceptedStep(blocks: seq<seq<byte>>, i: nat, room: int)
    requires i < |blocks| && 0 <= room && Fits(blocks[..i], room)
    ensures |Accepted(blocks[..i], room)| + |blocks[i]| <= room ==>
              Fits(blocks[..i + 1], room) && Accepted(blocks[..i + 1], room) == Accepted(blocks[..i], room) + blocks[i]
    ensures |Accepted(blocks[..i], room)| + |blocks[i]| > room ==>
              !Fits(blocks, room) && Accepted(blocks, room) == Accepted(blocks[..i], room)
    decreases i
  {
    if i > 0 {
      var rest := blocks[1..];
      assert blocks[..i][1..] == rest[..i - 1] && blocks[..i + 1][1..] == rest[..i];
      AcceptedStep(rest, i - 1, room - |blocks[0]|);
    } else {
      assert blocks[..1][1..] == [];
    }
  }

  method WriteAt(file: array<byte>, at: nat, data: seq<byte>)
    requires at + |data| <= file.Length
    modifies file
    ensures file[..] == Overwrite(old(file[..]), at, data)
  {
    forall k | 0 <= k < |data| {
      file[at + k] := data[k];
    }
  }

  lemma OverwriteMore(file: seq<byte>, at: nat, data: seq<byte>, more: seq<byte>)
    requires at + |data| + |more| <= |file|
    ensures |Overwrite(file, at, data)| == |file|
    ensures Overwrite(Overwrite(file, at, data), at + |data|, more) == Overwrite(file, at, data + more)
  {}

  /** The block loop of `_download_verified_chunk`, writing at the range's offset. */
  method Receive(file: array<byte>, start: nat, size: nat, blocks: seq<seq<byte>>) returns (downloaded: nat, fits: bool)
    requires start + size <= file.Length
    modifies file
    ensures file[..] == Overwrite(old(file[..]), start, Accepted(blocks, size))
    ensures downloaded == |Accepted(blocks, size)| && fits == Fits(blocks, size)
  {
    downloaded := 0;
    assert blocks[..0] == [];
    for i := 0 to |blocks|
      invariant Fits(blocks[..i], size)
      invariant downloaded == |Accepted(blocks[..i], size)|
      invariant file[..] == Overwrite(old(file[..]), start, Accepted(blocks[..i], size))
    {
      AcceptedStep(blocks, i, size);
      if downloaded + |blocks[i]| > size {
        return downloaded, false;
      }
      OverwriteMore(old(file[..]), start, Accepted(blocks[..i], size), blocks[i]);
      WriteAt(file, start + downloaded, blocks[i]);
      downloaded := downloaded + |blocks[i]|;
    }
    assert blocks[..|blocks|] == blocks;
    fits := true;
  }

  /** A body agrees with the remote file from the start of its range on, as far as
      the range goes. A server is honest when its validated range answers do. */
  ghost predicate Honest(remote: seq<byte>, r: Range, etag: string, a: Attempt)
    requires 0 <= r.start <= r.end < |remote|
  {
    a.Answer? && ValidRange(a.response, r.start, r.end, |remote|, etag) ==>
      Accepted(a.blocks, Size(r)) <= remote[r.start..r.end + 1]
  }

  /** What an attempt did: it succeeded, may be tried again, or failed for good. */
  datatype Result = Done | Again | Broken

  function Judge(r: Range, total: int, etag: string, a: Attempt): Result
    requires r.start <= r.end
  {
    if a.NoAnswer? then Again
    else if a.Refused? then Broken
    else if !ValidRange(a.response, r.start, r.end, total, etag) then Broken
    else if !Fits(a.blocks, Size(r)) then Broken
    else if a.ending.Lost? then Again
    else if a.ending.Aborted? then Broken
    else if |Accepted(a.blocks, Size(r))| != Size(r) then Broken
    else Done
  }

  /** Everything a body brings. */
  function Joined(blocks: seq<seq<byte>>): seq<byte> {
    if blocks == [] then [] else blocks[0] + Joined(blocks[1..])
  }

  lemma {:induction false} FitsByLength(blocks: seq<seq<byte>>, room: int)
    requires room >= 0
    ensures Fits(blocks, room) <==> |Joined(blocks)| <= room
    ensures Fits(blocks, room) ==> Accepted(blocks, room) == Joined(blocks)
    decreases |blocks|
  {
    if blocks != [] && |blocks[0]| <= room {
      FitsByLength(blocks[1..], room - |blocks[0]|);
    }
  }

  /** A valid answer for the range that brought exactly its size, to the end. */
  ghost predicate BringsRange(r: Range, total: int, etag: string, a: Attempt) {
    && a.Answer? && ValidRange(a.response, r.start, r.end, total, etag)
    && a.ending.Complete? && |Joined(a.blocks)| == r.end - r.start + 1
  }

  /** Nothing but the transport or a file failed: no answer at all, or a valid one that
      was cut off before it brought too much. */
  ghost predicate WorthRetrying(r: Range, total: int, etag: string, a: Attempt) {
    || a.NoAnswer?
    || (a.Answer? && ValidRange(a.response, r.start, r.end, total, etag)
        && a.ending.Lost? && |Joined(a.blocks)| <= r.end - r.start + 1)
  }

  lemma JudgedByItsBytes(r: Range, total: int, etag: string, a: Attempt)
    requires r.start <= r.end
    ensures Judge(r, total, etag, a).Done? <==> BringsRange(r, total, etag, a)
    ensures Judge(r, total, etag, a).Again? <==> WorthRetrying(r, total, etag, a)
  {
    hide ValidRange;
    if a.Answer? {
      FitsByLength(a.blocks, Size(r));
    }
  }

  /** One attempt on the shared staging file. */
  method AttemptRange(file: array<byte>, r: Range, etag: string, a: Attempt) returns (result: Result)
    requires 0 <= r.start <= r.end < file.Length
    modifies file
    ensures result == Judge(r, file.Length, etag, a)
    ensures file[..] == if a.Answer? && ValidRange(a.response, r.start, r.end, file.Length, etag)
                        then Overwrite(old(file[..]), r.start, Accepted(a.blocks, Size(r))) else old(file[..])
  {
    match a
    case NoAnswer => return Again;
    case Refused => return Broken;
    case Answer(response, blocks, ending) =>
      if !ValidRange(response, r.start, r.end, file.Length, etag) {
        return Broken;
      }
      var downloaded, fits := Receive(file, r.start, Size(r), blocks);
      if !fits {
        return Broken;
      }
      if !ending.Complete? {
        return if ending.Lost? then Again else Broken;
      }
      return if downloaded != Size(r) then Broken else Done;
  }

  /** Every byte outside the range is as before, every byte inside is as before or remote. */
  ghost predicate OnlyRemoteBytes(before: seq<byte>, after: seq<byte>, remote: seq<byte>, r: Range)
    requires 0 <= r.start <= r.end < |remote|
  {
    && |after| == |before| == |remote|
    && forall k | 0 <= k < |after| ::
         after[k] == before[k] || (r.start <= k <= r.end && after[k] == remote[k])
  }

  lemma AttemptWritesRemote(before: seq<byte>, now: seq<byte>, remote: seq<byte>, r: Range, data: seq<byte>)
    requires 0 <= r.start <= r.end < |remote| && OnlyRemoteBytes(before, now, remote, r)
    requires |data| <= Size(r) && data <= remote[r.start..r.end + 1]
    ensures OnlyRemoteBytes(before, Overwrite(now, r.start, data), remote, r)
    ensures |data| == Size(r) ==> Overwrite(now, r.start, data)[r.start..r.end + 1] == remote[r.start..r.end + 1]
  {
    var after := Overwrite(now, r.start, data);
    forall k | 0 <= k < |after|
      ensures after[k] == before[k] || (r.start <= k <= r.end && after[k] == remote[k])
    {
      if r.start <= k < r.start + |data| {
        assert after[k] == data[k - r.start] == remote[r.start..r.end + 1][k - r.start];
      } else {
        assert after[k] == now[k];
      }
    }
    if |data| == Size(r) {
      assert data == remote[r.start..r.end + 1];
    }
  }

  /** `_download_verified_chunk` on the staging file: the whole range is asked for
      again after a transport failure, at most `limit` times. Against an honest
      server success means the range holds the remote bytes, and failure leaves
      nothing but remote bytes behind, inside the range only. */
  method DownloadRange(file: array<byte>, r: Range, etag: string, limit: nat, attempts: seq<Attempt>,
      ghost remote: seq<byte>)
    returns (ok: bool, sent: nat)
    requires 0 <= r.start <= r.end < file.Length == |remote|
    requires forall a | a in attempts :: Honest(remote, r, etag, a)
    modifies file
    ensures 1 <= sent <= limit + 1
    ensures forall m | 0 <= m < sent - 1 :: WorthRetrying(r, file.Length, etag, Nth(attempts, m))
    ensures ok <==> BringsRange(r, file.Length, etag, Nth(attempts, sent - 1))
    ensures WorthRetrying(r, file.Length, etag, Nth(attempts, sent - 1)) ==> sent == limit + 1
    ensures OnlyRemoteBytes(old(file[..]), file[..], remote, r)
    ensures ok ==> file[r.start..r.end + 1] == remote[r.start..r.end + 1]
  {
    ghost var before := file[..];
    NothingWritten(before, remote, r);
    NothingHonest(remote, r, etag, file.Length, attempts);
    hide OnlyRemoteBytes, Judge, Honest, WorthRetrying, BringsRange;
    sent := 0;
    while true
      invariant sent <= limit && AllAgain(r, file.Length, etag, attempts, sent)
      invariant OnlyRemoteBytes(before, file[..], remote, r)
      decreases limit - sent
    {
      var a := Nth(attempts, sent);
      assert Honest(remote, r, etag, a);
      JudgedByItsBytes(r, file.Length, etag, a);
      var result := AttemptHonestly(file, r, etag, a, remote, before);
      sent := sent + 1;
      if result.Done? {
        return true, sent;
      }
      if result.Broken? || sent == limit + 1 {
        return false, sent;
      }
      OneMoreAgain(r, file.Length, etag, attempts, sent - 1);
    }
  }

  lemma NothingWritten(file: seq<byte>, remote: seq<byte>, r: Range)
    requires 0 <= r.start <= r.end < |file| == |remote|
    ensures OnlyRemoteBytes(file, file, remote, r)
  {}

  /** Attempts beyond the given ones get no answer. */
  function Nth(attempts: seq<Attempt>, n: nat): Attempt {
    if n < |attempts| then attempts[n] else NoAnswer
  }

  /** The first `n` attempts were all lost to the network. */
  ghost predicate AllAgain(r: Range, total: int, etag: string, attempts: seq<Attempt>, n: nat)
    requires r.start <= r.end
  {
    forall m | 0 <= m < n :: WorthRetrying(r, total, etag, Nth(attempts, m))
  }

  lemma NothingHonest(remote: seq<byte>, r: Range, etag: string, total: int, attempts: seq<Attempt>)
    requires 0 <= r.start <= r.end < |remote| && forall a | a in attempts :: Honest(remote, r, etag, a)
    ensures AllAgain(r, total, etag, attempts, 0) && forall n: nat :: Honest(remote, r, etag, Nth(attempts, n))
  {
    hide ValidRange, Accepted;
  }

  lemma OneMoreAgain(r: Range, total: int, etag: string, attempts: seq<Attempt>, n: nat)
    requires r.start <= r.end && AllAgain(r, total, etag, attempts, n)
    requires WorthRetrying(r, total, etag, Nth(attempts, n))
    ensures AllAgain(r, total, etag, attempts, n + 1)
  {
    hide WorthRetrying, Nth;
  }

  method AttemptHonestly(file: array<byte>, r: Range, etag: string, a: Attempt, ghost remote: seq<byte>,
      ghost before: seq<byte>)
    returns (result: Result)
    requires 0 <= r.start <= r.end < file.Length == |remote| && Honest(remote, r, etag, a)
    requires OnlyRemoteBytes(before, file[..], remote, r)
    modifies file
    ensures result == Judge(r, file.Length, etag, a) && OnlyRemoteBytes(before, file[..], remote, r)
    ensures result.Done? ==> file[r.start..r.end + 1] == remote[r.start..r.end + 1]
  {
    hide ValidRange, Fits, Overwrite, OnlyRemoteBytes;
    ghost var now := file[..];
    result := AttemptRange(file, r, etag, a);
    if a.Answer? && ValidRange(a.response, r.start, r.end, file.Length, etag) {
      AttemptWritesRemote(before, now, remote, r, Accepted(a.blocks, Size(r)));
      assert file[..][r.start..r.end + 1] == file[r.start..r.end + 1];
    }
  }

  /** A range's own file in the other mode; opening it for an attempt empties it. */
  class TempFile {
    var bytes: seq<byte>

    constructor ()
      ensures bytes == []
    {
      bytes := [];
    }
  }

  /** The block loop, writing to the range's own file. */
  method ReceiveTemp(temp: TempFile, size: nat, blocks: seq<seq<byte>>) returns (fits: bool)
    modifies temp
    ensures temp.bytes == Accepted(blocks, size) && fits == Fits(blocks, size)
  {
    temp.bytes := [];
    assert blocks[..0] == [];
    for i := 0 to |blocks|
      invariant Fits(blocks[..i], size) && temp.bytes == Accepted(blocks[..i], size)
    {
      AcceptedStep(blocks, i, size);
      if |temp.bytes| + |blocks[i]| > size {
        return false;
      }
      temp.bytes := temp.bytes + blocks[i];
    }
    assert blocks[..|blocks|] == blocks;
    fits := true;
  }

  /** One attempt on the range's own file. */
  method AttemptTemp(temp: TempFile, r: Range, total: int, etag: string, a: Attempt) returns (result: Result)
    requires 0 <= r.start <= r.end
    modifies temp
    ensures result == Judge(r, total, etag, a)
    ensures temp.bytes == if a.Answer? && ValidRange(a.response, r.start, r.end, total, etag)
                          then Accepted(a.blocks, Size(r)) else old(temp.bytes)
  {
    hide ValidRange;
    match a
    case NoAnswer => return Again;
    case Refused => return Broken;
    case Answer(response, blocks, ending) =>
      if !ValidRange(response, r.start, r.end, total, etag) {
        return Broken;
      }
      var fits := ReceiveTemp(temp, Size(r), blocks);
      if !fits {
        return Broken;
      }
      if !ending.Complete? {
        return if ending.Lost? then Again else Broken;
      }
      return if |temp.bytes| != Size(r) then Broken else Done;
  }

  /** `_download_verified_chunk` on the range's own file: asked again as for the
      staging file; success means the file is exactly the remote range. */
  method DownloadTemp(temp: TempFile, r: Range, total: nat, etag: string, limit: nat, attempts: seq<Attempt>,
                      ghost remote: seq<byte>)
    returns (ok: bool, sent: nat)
    requires 0 <= r.start <= r.end < total == |remote|
    requires forall a | a in attempts :: Honest(remote, r, etag, a)
    modifies temp
    ensures 1 <= sent <= limit + 1
    ensures forall m | 0 <= m < sent - 1 :: WorthRetrying(r, |remote|, etag, Nth(attempts, m))
    ensures ok <==> BringsRange(r, |remote|, etag, Nth(attempts, sent - 1))
    ensures WorthRetrying(r, |remote|, etag, Nth(attempts, sent - 1)) ==> sent == limit + 1
    ensures OldOrPart(old(temp.bytes), temp.bytes, remote, r)
    ensures ok ==> temp.bytes == remote[r.start..r.end + 1]
  {
    ghost var before := temp.bytes;
    NothingHonest(remote, r, etag, total, attempts);
    assert OldOrPart(before, temp.bytes, remote, r);
    hide Judge, Honest, Nth, WorthRetrying, BringsRange;
    sent := 0;
    while true
      invariant sent <= limit && AllAgain(r, total, etag, attempts, sent)
      invariant OldOrPart(before, temp.bytes, remote, r)
      decreases limit - sent
    {
      hide OldOrPart;
      var a := Nth(attempts, sent);
      assert Honest(remote, r, etag, a);
      JudgedByItsBytes(r, total, etag, a);
      var result := AttemptTempHonestly(temp, r, total, etag, a, remote, before);
      sent := sent + 1;
      if result.Done? {
        return true, sent;
      }
      if result.Broken? || sent == limit + 1 {
        return false, sent;
      }
      OneMoreAgain(r, total, etag, attempts, sent - 1);
    }
  }

  /** The file is as it was before, or begins the remote range. */
  ghost predicate OldOrPart(before: seq<byte>, now: seq<byte>, remote: seq<byte>, r: Range)
    requires 0 <= r.start <= r.end < |remote|
  {
    now == before || now <= remote[r.start..r.end + 1]
  }

  method AttemptTempHonestly(temp: TempFile, r: Range, total: nat, etag: string, a: Attempt,
                             ghost remote: seq<byte>, ghost before: seq<byte>)
    returns (result: Result)
    requires 0 <= r.start <= r.end < total == |remote| && Honest(remote, r, etag, a)
    requires OldOrPart(before, temp.bytes, remote, r)
    modifies temp
    ensures result == Judge(r, total, etag, a) && OldOrPart(before, temp.bytes, remote, r)
    ensures result.Done? ==> temp.bytes == remote[r.start..r.end + 1]
  {
    JudgedHonestly(remote, r, etag, a);
    hide ValidRange, Judge, Honest;
    result := AttemptTemp(temp, r, total, etag, a);
  }

  lemma JudgedHonestly(remote: seq<byte>, r: Range, etag: string, a: Attempt)
    requires 0 <= r.start <= r.end < |remote| && Honest(remote, r, etag, a)
    ensures a.Answer? && ValidRange(a.response, r.start, r.end, |remote|, etag) ==>
              Accepted(a.blocks, Size(r)) <= remote[r.start..r.end + 1]
    ensures Judge(r, |remote|, etag, a).Done? ==>
              a.Answer? && ValidRange(a.response, r.start, r.end, |remote|, etag)
              && Accepted(a.blocks, Size(r)) == remote[r.start..r.end + 1]
  {
    hide ValidRange;
  }

  /** `assemble_file`, phase 4: every temporary file is read in bounded blocks and
      written at its range's offset. It succeeds exactly when every file is there
      and has its range's size, and then every range holds its file's bytes. */
  method AssembleFile(file: array<byte>, ranges: seq<Range>, temps: seq<Option<seq<byte>>>, buffer: nat)
      returns (ok: bool)
    requires Tiles(ranges, file.Length) && |temps| == |ranges| && buffer > 0
    modifies file
    ensures ok <==> forall i | 0 <= i < |ranges| :: temps[i].Some? && |temps[i].value| == Size(ranges[i])
    ensures ok ==> forall i | 0 <= i < |ranges| :: IsPlaced(ranges, file[..], i, temps[i].value)
  {
    hide IsPlaced, Overwrite;
    for i := 0 to |ranges|
      invariant forall k | 0 <= k < i :: temps[k].Some? && |temps[k].value| == Size(ranges[k])
      invariant forall k | 0 <= k < i :: IsPlaced(ranges, file[..], k, temps[k].value)
    {
      RangesInside(ranges, file.Length, i);
      if temps[i].None? {
        return false;
      }
      ghost var before := file[..];
      var written := CopyTemp(file, ranges[i].start, Size(ranges[i]), temps[i].value, buffer);
      if !written {
        return false;
      }
      forall k | 0 <= k <= i
        ensures IsPlaced(ranges, file[..], k, temps[k].value)
      {
        CopyKeepsPlaced(ranges, before, temps[i].value, i, temps[k].value, k);
      }
    }
    ok := true;
  }

  /** Copying one range's file places it and moves no earlier one. */
  lemma CopyKeepsPlaced(ranges: seq<Range>, before: seq<byte>, data: seq<byte>, i: nat, earlier: seq<byte>, k: nat)
    requires Tiles(ranges, |before|) && k <= i < |ranges|
    requires |data| == Size(ranges[i]) && 0 <= ranges[i].start && ranges[i].start + |data| <= |before|
    requires if k == i then earlier == data else |earlier| == Size(ranges[k]) && IsPlaced(ranges, before, k, earlier)
    ensures IsPlaced(ranges, Overwrite(before, ranges[i].start, data), k, earlier)
  {
    if k < i {
      TilesOrdered(ranges, |before|, k, i);
    }
    OverwriteParts(before, ranges[i].start, data, ranges[k].start, ranges[k].start + |earlier|);
  }

  /** The inner loop over one temporary file's blocks. */
  method CopyTemp(file: array<byte>, start: nat, expected: nat, temp: seq<byte>, buffer: nat) returns (ok: bool)
    requires start + expected <= file.Length && buffer > 0
    modifies file
    ensures ok <==> |temp| == expected
    ensures ok ==> file[..] == Overwrite(old(file[..]), start, temp)
  {
    var written := 0;
    while written < |temp|
      invariant written <= |temp| && written <= expected
      invariant file[..] == Overwrite(old(file[..]), start, temp[..written])
    {
      var end := if written + buffer <= |temp| then written + buffer else |temp|;
      var data := temp[written..end];
      if written + |data| > expected {
        return false;
      }
      OverwriteMore(old(file[..]), start, temp[..written], data);
      assert temp[..end] == temp[..written] + data;
      WriteAt(file, start + written, data);
      written := end;
    }
    assert temp[..|temp|] == temp;
    return written == expected;
  }

  /** Joining the temporary files that hold the remote ranges gives the remote file. */
  lemma AssembledIsRemote(p: Plan, joined: seq<byte>, temps: seq<seq<byte>>)
    requires PlanOk(p) && |joined| == |p.remote| && |temps| == |p.ranges|
    requires forall i | 0 <= i < |p.ranges| :: temps[i] == Part(p, i, Size(p.ranges[i]))
    requires forall i | 0 <= i < |p.ranges| :: IsPlaced(p.ranges, joined, i, temps[i])
    ensures joined == p.remote
  {
    forall i | 0 <= i < |p.ranges| ensures PartAt(p, joined, i) {
      RangesInside(p.ranges, |p.remote|, i);
      assert IsPlaced(p.ranges, joined, i, temps[i]);
    }
    RangesMakeFile(p, joined);
  }

  lemma {:induction false} AcceptedPrefix(blocks: seq<seq<byte>>, k: nat, room: int)
    requires k <= |blocks| && room >= 0
    ensures Accepted(blocks[..k], room) <= Accepted(blocks, room)
    decreases k
  {
    if k > 0 && |blocks[0]| <= room {
      assert blocks[..k][1..] == blocks[1..][..k - 1];
      AcceptedPrefix(blocks[1..], k - 1, room - |blocks[0]|);
    }
  }

  /** Every block that an honest, validated answer gets written is a step the
      transfer protocol allows: it continues the range where the writer stands. */
  lemma HonestBlockContinues(p: Plan, i: nat, etag: string, a: Attempt, k: nat)
    requires PlanOk(p) && i < |p.ranges| && 0 <= p.ranges[i].start <= p.ranges[i].end < |p.remote|
    requires a.Answer? && ValidRange(a.response, p.ranges[i].start, p.ranges[i].end, |p.remote|, etag)
    requires Honest(p.remote, p.ranges[i], etag, a) && k < |a.blocks| && Fits(a.blocks[..k + 1], Size(p.ranges[i]))
    ensures var got := |Accepted(a.blocks[..k], Size(p.ranges[i]))|;
            && got + |a.blocks[k]| <= Size(p.ranges[i])
            && Part(p, i, got) + a.blocks[k] == Part(p, i, got + |a.blocks[k]|)
  {
    hide ValidRange;
    var room := Size(p.ranges[i]);
    hide Tiles;
    var so, far := Accepted(a.blocks[..k], room), Accepted(a.blocks[..k + 1], room);
    assert a.blocks[..k + 1][..k] == a.blocks[..k];
    FitsPrefix(a.blocks[..k + 1], k, room);
    AcceptedStep(a.blocks[..k + 1], k, room);
    assert a.blocks[..k + 1][..k + 1] == a.blocks[..k + 1];
    AcceptedPrefix(a.blocks, k + 1, room);
    HonestPrefix(p, i, etag, a, k + 1);
    hide Fits, Accepted, Honest;
    PartOfPrefix(p, i, far);
    PartOfPrefix(p, i, so);
  }

  /** What is accepted of an honest answer begins the range's own bytes. */
  lemma HonestPrefix(p: Plan, i: nat, etag: string, a: Attempt, k: nat)
    requires PlanOk(p) && i < |p.ranges| && 0 <= p.ranges[i].start <= p.ranges[i].end < |p.remote|
    requires a.Answer? && ValidRange(a.response, p.ranges[i].start, p.ranges[i].end, |p.remote|, etag)
    requires Honest(p.remote, p.ranges[i], etag, a) && k <= |a.blocks|
    ensures Accepted(a.blocks[..k], Size(p.ranges[i])) <= p.remote[p.ranges[i].start..p.ranges[i].end + 1]
  {
    hide ValidRange, Tiles;
    AcceptedPrefix(a.blocks, k, Size(p.ranges[i]));
  }

  lemma PartOfPrefix(p: Plan, i: nat, data: seq<byte>)
    requires PlanOk(p) && i < |p.ranges| && 0 <= p.ranges[i].start <= p.ranges[i].end < |p.remote|
    requires data <= p.remote[p.ranges[i].start..p.ranges[i].end + 1]
    ensures |data| <= Size(p.ranges[i]) && data == Part(p, i, |data|)
  {
    hide Tiles;
  }

  lemma {:induction false} FitsPrefix(blocks: seq<seq<byte>>, k: nat, room: int)
    requires k <= |blocks| && Fits(blocks, room)
    ensures Fits(blocks[..k], room)
    decreases k
  {
    if k > 0 {
      assert blocks[..k][1..] == blocks[1..][..k - 1];
      FitsPrefix(blocks[1..], k - 1, room - |blocks[0]|);
    }
  }
}
