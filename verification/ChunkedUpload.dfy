/** A chunked upload session: chunks land in any order, and a commit hands over the assembled file. */
module ChunkedUpload {
  import opened Options
  import opened Sequences

  newtype byte = x: int | 0 <= x < 256

  const CHUNK_SIZE := 4 * 1024 * 1024

  /** The account and workspace a request comes from. */
  datatype Caller = Caller(uid: string, hub: string)

  /** The session: its owner, its preallocated file and the chunk indices marked received. */
  datatype Upload = Upload(owner: Caller, file: seq<byte>, received: set<nat>, alive: bool)

  /**
   * A request. A chunk's payload is missing when its temporary file is; `failsAfter` is where the
   * copy into the session file broke off, if it did. `present` tells whether the session file is
   * still there when a commit looks for it.
   */
  datatype Request =
    | Chunk(caller: Caller, index: int, payload: Option<seq<byte>>, failsAfter: Option<nat>)
    | Status(caller: Caller)
    | Complete(caller: Caller, present: bool)
    | Abort(caller: Caller)

  datatype Reply =
    | NotFound
    | Denied
    | BadIndex
    | BadSize
    | WriteFailed
    | Received(indices: seq<nat>)
    | Incomplete(missing: seq<nat>)
    | Corrupted
    | Committed(bytes: seq<byte>)
    | Aborted

  // ----- chunks -----

  function Total(filesize: nat): nat {
    Max(1, (filesize + CHUNK_SIZE - 1) / CHUNK_SIZE)
  }

  function ExpectedLength(filesize: nat, index: nat): int {
    Min(CHUNK_SIZE, filesize - index * CHUNK_SIZE)
  }

  /** The part of a file a chunk carries. */
  function SliceOf(file: seq<byte>, index: nat): seq<byte>
    requires index < Total(|file|)
  {
    file[index * CHUNK_SIZE..index * CHUNK_SIZE + ExpectedLength(|file|, index)]
  }

  function Overwritten(file: seq<byte>, start: nat, data: seq<byte>): seq<byte>
    requires start + |data| <= |file|
  {
    file[..start] + data + file[start + |data|..]
  }

  /** Ascending indices below `total` that are (or are not) in a set. */
  function Listed(total: nat, s: set<nat>, inside: bool): seq<nat> {
    if total == 0 then []
    else Listed(total - 1, s, inside) + (if (total - 1 in s) == inside then [total - 1] else [])
  }

  lemma {:induction false} ListedMembers(total: nat, s: set<nat>, inside: bool)
    ensures forall i: nat :: i in Listed(total, s, inside) <==> i < total && ((i in s) == inside)
  {
    if total > 0 { ListedMembers(total - 1, s, inside); }
  }

  predicate Ascending(l: seq<nat>) {
    forall j, k :: 0 <= j < k < |l| ==> l[j] < l[k]
  }

  lemma AscendsFurther(l: seq<nat>, n: nat)
    requires Ascending(l) && forall i <- l :: i < n
    ensures Ascending(l + [n])
  {
    assert forall j :: 0 <= j < |l| ==> l[j] in l;
  }

  lemma ListedNext(total: nat, s: set<nat>, inside: bool)
    requires Ascending(Listed(total, s, inside))
    ensures Ascending(Listed(total + 1, s, inside))
  {
    var l := Listed(total, s, inside);
    ListedMembers(total, s, inside);
    AscendsFurther(l, total);
    Unit(l);
  }

  lemma {:induction false} ListedAscends(total: nat, s: set<nat>, inside: bool)
    ensures Ascending(Listed(total, s, inside))
  {
    if total > 0 {
      ListedAscends(total - 1, s, inside);
      ListedNext(total - 1, s, inside);
    }
  }

  /** The listing is exactly the indices meant, each once, in ascending order. */
  lemma ListedExactly(total: nat, s: set<nat>, inside: bool)
    ensures forall i: nat :: i in Listed(total, s, inside) <==> i < total && ((i in s) == inside)
    ensures Ascending(Listed(total, s, inside))
  {
    ListedMembers(total, s, inside);
    ListedAscends(total, s, inside);
  }

  // ----- one request -----

  /** How much of a chunk reaches the file: all of it, or the part before the copy broke off. */
  function Landed(payload: seq<byte>, failsAfter: Option<nat>): seq<byte> {
    if failsAfter.Some? && failsAfter.value < |payload| then payload[..failsAfter.value] else payload
  }

  predicate RightSized(r: Request, size: nat) {
    r.Chunk? && r.payload.Some? && 0 <= r.index < Total(size) && |r.payload.value| == ExpectedLength(size, r.index)
  }

  function Handle(u: Upload, r: Request): (Upload, Reply) {
    if !u.alive then (u, NotFound)
    else if r.caller != u.owner then (u, Denied)
    else
      var total := Total(|u.file|);
      match r
      case Chunk(_, index, payload, failsAfter) =>
        if index < 0 || index >= total then (u, BadIndex)
        else if !RightSized(r, |u.file|) then (u, BadSize)
        else
          var landed := Landed(payload.value, failsAfter);
          var written := u.(file := Overwritten(u.file, index * CHUNK_SIZE, landed));
          if failsAfter.Some? then (written, WriteFailed)
          else (written.(received := u.received + {index}), Received(Listed(total, u.received + {index}, true)))
      case Status(_) => (u, Received(Listed(total, u.received, true)))
      case Complete(_, present) =>
        if Listed(total, u.received, false) != [] then (u, Incomplete(Listed(total, u.received, false)))
        else if !present then (u.(alive := false), Corrupted)
        else (u.(alive := false), Committed(u.file))
      case Abort(_) => (u.(alive := false), Aborted)
  }

  /** A new session: nothing received, the file preallocated. */
  function Opened(owner: Caller, filesize: nat): Upload {
    Upload(owner, seq(filesize, i => 0), {}, true)
  }

  // ----- what a request comes to -----

  /** A file takes as many chunks of 4 MiB as are needed, and at least one. */
  lemma TotalExactly(size: nat)
    ensures if size == 0 then Total(size) == 1
            else (Total(size) - 1) * 4194304 < size <= Total(size) * 4194304
  {
  }

  /** All chunks but the last are full, and the last holds the rest. */
  lemma LengthExactly(size: nat, index: nat)
    requires index < Total(size)
    ensures ExpectedLength(size, index) == if index + 1 < Total(size) then 4194304 else size - index * 4194304
  {
    TotalExactly(size);
  }

  /** A listing of the indices below `total` that are, or are not, received. */
  ghost predicate Lists(indices: seq<nat>, total: nat, received: set<nat>, inside: bool) {
    Ascending(indices) && forall i: nat :: i in indices <==> i < total && ((i in received) == inside)
  }

  /** Requests to an ended session, and those of other callers, change nothing. */
  lemma StrangersChangeNothing(u: Upload, r: Request)
    ensures !u.alive ==> Handle(u, r) == (u, NotFound)
    ensures u.alive && r.caller != u.owner ==> Handle(u, r) == (u, Denied)
  {
  }

  /** A status lists what was received. */
  lemma StatusLists(u: Upload, r: Request)
    requires u.alive && r.Status? && r.caller == u.owner
    ensures Handle(u, r).0 == u && Handle(u, r).1.Received?
    ensures Lists(Handle(u, r).1.indices, Total(|u.file|), u.received, true)
  {
    ListedExactly(Total(|u.file|), u.received, true);
  }

  /** A commit lists what is missing, or ends the session and hands over its file if that is still there. */
  lemma CompleteExactly(u: Upload, r: Request)
    requires u.alive && r.Complete? && r.caller == u.owner
    ensures var (after, reply) := Handle(u, r);
            if LacksSome(u)
            then after == u && reply.Incomplete? && Lists(reply.missing, Total(|u.file|), u.received, false)
            else after == u.(alive := false) && (r.present ==> reply == Committed(u.file)) &&
                 (!r.present ==> reply == Corrupted)
  {
    ListedExactly(Total(|u.file|), u.received, false);
    MissingShows(u);
  }

  /** Some chunk of the file has not been received. */
  ghost predicate LacksSome(u: Upload) {
    exists i: nat :: i < Total(|u.file|) && i !in u.received
  }

  lemma MissingShows(u: Upload)
    ensures Listed(Total(|u.file|), u.received, false) != [] <==> LacksSome(u)
  {
    var missing := Listed(Total(|u.file|), u.received, false);
    ListedMembers(Total(|u.file|), u.received, false);
    if missing != [] { assert missing[0] in missing; }
    if LacksSome(u) {
      var i: nat :| i < Total(|u.file|) && i !in u.received;
      assert i in missing;
    }
  }

  lemma AbortEnds(u: Upload, r: Request)
    requires u.alive && r.Abort? && r.caller == u.owner
    ensures Handle(u, r) == (u.(alive := false), Aborted)
  {
  }

  /** The bytes from `start` on are `data`, and all others are as they were. */
  predicate Holds(file: seq<byte>, was: seq<byte>, start: nat, data: seq<byte>) {
    |file| == |was| && start + |data| <= |file| && file[start..start + |data|] == data &&
    file[..start] == was[..start] && file[start + |data|..] == was[start + |data|..]
  }

  /** The chunk is the `index`-th of the file, and as long as that one is. */
  predicate Acceptable(u: Upload, r: Request)
    requires r.Chunk?
  {
    0 <= r.index < Total(|u.file|) && r.payload.Some? && |r.payload.value| == ExpectedLength(|u.file|, r.index)
  }

  /** A chunk that is not acceptable changes nothing; one whose copy breaks off is not received. */
  lemma ChunkExactly(u: Upload, r: Request)
    requires u.alive && r.Chunk? && r.caller == u.owner
    ensures var (after, reply) := Handle(u, r);
            after.alive && after.owner == u.owner &&
            (!(0 <= r.index < Total(|u.file|)) ==> after == u && reply == BadIndex) &&
            (0 <= r.index < Total(|u.file|) && !Acceptable(u, r) ==> after == u && reply == BadSize) &&
            (Acceptable(u, r) && r.failsAfter.Some? ==>
               after.received == u.received && reply == WriteFailed &&
               Holds(after.file, u.file, r.index * 4194304,
                 r.payload.value[..Min(r.failsAfter.value, |r.payload.value|)])) &&
            (Acceptable(u, r) && r.failsAfter.None? ==>
               after.received == u.received + {r.index} && reply.Received? &&
               Lists(reply.indices, Total(|u.file|), after.received, true) &&
               Holds(after.file, u.file, r.index * 4194304, r.payload.value))
  {
    if Acceptable(u, r) {
      SliceFits(|u.file|, r.index);
      ListedExactly(Total(|u.file|), u.received + {r.index}, true);
      OverwrittenHolds(u.file, r.index * CHUNK_SIZE, Landed(r.payload.value, r.failsAfter));
    }
  }

  lemma OverwrittenHolds(file: seq<byte>, start: nat, data: seq<byte>)
    requires start + |data| <= |file|
    ensures Holds(Overwritten(file, start, data), file, start, data)
  {
  }

  // ----- runs of requests -----

  function After(u: Upload, rs: seq<Request>): Upload {
    if rs == [] then u else Handle(After(u, rs[..|rs| - 1]), rs[|rs| - 1]).0
  }

  /** A run ends with what its last request makes of the session. */
  lemma RunOneMore(u: Upload, rs: seq<Request>, r: Request)
    ensures After(u, []) == u && After(u, rs + [r]) == Handle(After(u, rs), r).0
  {
    LastOf(rs, r);
  }

  /** The session's owner cuts one file; what other callers send is not constrained. */
  predicate Cuts(owner: Caller, original: seq<byte>, rs: seq<Request>) {
    forall k :: 0 <= k < |rs| && rs[k].caller == owner && RightSized(rs[k], |original|) ==>
      rs[k].payload.value == SliceOf(original, rs[k].index)
  }

  /** Some request of the run wrote this chunk in full and was marked received. */
  predicate Delivered(owner: Caller, size: nat, rs: seq<Request>, index: nat) {
    exists k :: 0 <= k < |rs| && rs[k].Chunk? && rs[k].caller == owner && rs[k].index == index &&
      rs[k].failsAfter.None? &&
                rs[k].payload.Some? && |rs[k].payload.value| == ExpectedLength(size, index)
  }

  /** Received chunks hold the original's bytes and were delivered in full. */
  predicate Faithful(u: Upload, original: seq<byte>, rs: seq<Request>) {
    |u.file| == |original| &&
    forall i :: i in u.received ==>
      i < Total(|original|) && SliceOf(u.file, i) == SliceOf(original, i) && Delivered(u.owner, |original|, rs, i)
  }

  lemma SliceFits(size: nat, index: nat)
    requires index < Total(size)
    ensures 0 <= index * CHUNK_SIZE && 0 <= ExpectedLength(size, index) &&
              index * CHUNK_SIZE + ExpectedLength(size, index) <= size
  {
  }

  /** Writing part of the original into its place keeps every slice that already agreed. */
  lemma WriteKeepsSlices(file: seq<byte>, original: seq<byte>, index: nat, n: nat, i: nat)
    requires |file| == |original| && index < Total(|file|) && i < Total(|file|) && n <= ExpectedLength(|file|, index)
    requires SliceOf(file, i) == SliceOf(original, i) || (i == index && n == ExpectedLength(|file|, index))
    ensures var written := Overwritten(file, index * CHUNK_SIZE, SliceOf(original, index)[..n]);
            |written| == |original| && SliceOf(written, i) == SliceOf(original, i)
  {
    var written := Overwritten(file, index * CHUNK_SIZE, SliceOf(original, index)[..n]);
    SliceFits(|file|, i);
    SliceFits(|file|, index);
    forall k | 0 <= k < ExpectedLength(|file|, i) ensures SliceOf(written, i)[k] == SliceOf(original, i)[k] {
      var p := i * CHUNK_SIZE + k;
      if i == index && k < n {
        assert written[p] == SliceOf(original, index)[..n][k];
      } else {
        assert written[p] == file[p] == SliceOf(file, i)[k];
      }
    }
  }

  lemma HandleKeepsFaith(u: Upload, original: seq<byte>, rs: seq<Request>, r: Request)
    requires Faithful(u, original, rs) && Cuts(u.owner, original, rs + [r])
    ensures Faithful(Handle(u, r).0, original, rs + [r]) && Handle(u, r).0.owner == u.owner
  {
    var after, more := Handle(u, r).0, rs + [r];
    assert more[|rs|] == r;
    forall i | i in u.received ensures Delivered(u.owner, |original|, more, i) {
      assert Delivered(u.owner, |original|, rs, i);
      var k :| 0 <= k < |rs| && rs[k].Chunk? && rs[k].caller == u.owner && rs[k].index == i && rs[k].failsAfter.None? &&
               rs[k].payload.Some? && |rs[k].payload.value| == ExpectedLength(|original|, i);
      assert more[k] == rs[k];
    }
    if u.alive && r.caller == u.owner && RightSized(r, |u.file|) {
      var landed := Landed(r.payload.value, r.failsAfter);
      assert landed == SliceOf(original, r.index)[..|landed|];
      forall i | i in after.received ensures i < Total(|original|) && SliceOf(after.file, i) == SliceOf(original, i) {
        WriteKeepsSlices(u.file, original, r.index, |landed|, i);
      }
      if after.received != u.received { assert Delivered(u.owner, |original|, more, r.index); }
    }
  }

  lemma {:induction false} RunKeepsFaith(owner: Caller, original: seq<byte>, rs: seq<Request>)
    requires Cuts(owner, original, rs)
    ensures Faithful(After(Opened(owner, |original|), rs), original, rs)
    ensures After(Opened(owner, |original|), rs).owner == owner
    decreases rs
  {
    if rs != [] {
      var before, last := rs[..|rs| - 1], rs[|rs| - 1];
      InitLast(rs);
      RunKeepsFaith(owner, original, before);
      HandleKeepsFaith(After(Opened(owner, |original|), before), original, before, last);
    }
  }

  /** Chunks cover the file: files that agree chunk by chunk are equal. */
  lemma ChunksCover(file: seq<byte>, original: seq<byte>)
    requires |file| == |original| && forall i :: 0 <= i < Total(|file|) ==> SliceOf(file, i) == SliceOf(original, i)
    ensures file == original
  {
    forall p | 0 <= p < |file| ensures file[p] == original[p] {
      var i := p / CHUNK_SIZE;
      assert SliceOf(file, i)[p - i * CHUNK_SIZE] == file[p];
      assert SliceOf(original, i)[p - i * CHUNK_SIZE] == original[p];
    }
  }

  lemma NothingMissing(u: Upload)
    requires Listed(Total(|u.file|), u.received, false) == []
    ensures forall i: nat :: i < Total(|u.file|) ==> i in u.received
  {
    ListedMembers(Total(|u.file|), u.received, false);
    forall i: nat | i < Total(|u.file|) ensures i in u.received {
      assert i !in Listed(Total(|u.file|), u.received, false);
    }
  }

  /**
   * Whatever the order, repeats, rejected or broken-off chunks before it, a commit happens only when
   * every index was delivered in full, and hands over exactly the original file.
   */
  lemma CommitIsOriginal(owner: Caller, original: seq<byte>, rs: seq<Request>, r: Request)
    requires Cuts(owner, original, rs) && Handle(After(Opened(owner, |original|), rs), r).1.Committed?
    ensures Handle(After(Opened(owner, |original|), rs), r).1 == Committed(original)
    ensures forall i :: 0 <= i < Total(|original|) ==> Delivered(owner, |original|, rs, i)
  {
    var u := After(Opened(owner, |original|), rs);
    RunKeepsFaith(owner, original, rs);
    NothingMissing(u);
    assert forall i :: 0 <= i < Total(|original|) ==> i in u.received;
    ChunksCover(u.file, original);
  }

  // ----- the session as the service keeps it -----

  /** The open session: its file on disk and its set of received indices. */
  class UploadSession {
    const owner: Caller
    const file: array<byte>
    var received: set<nat>
    var alive: bool

    function Now(): Upload
      reads this, file
    {
      Upload(owner, file[..], received, alive)
    }

    constructor (owner: Caller, filesize: nat)
      ensures Now() == Opened(owner, filesize) && fresh(file)
    {
      this.owner := owner;
      file := new byte[filesize](i => 0);
      received, alive := {}, true;
      new;
      assert file[..] == seq(filesize, i => 0);
    }

    /** Chunks not received yet, in ascending order. */
    method Missing() returns (missing: seq<nat>)
      ensures missing == Listed(Total(file.Length), received, false)
    {
      missing := [];
      for i := 0 to Total(file.Length)
        invariant missing == Listed(i, received, false)
      {
        if i !in received { missing := missing + [i]; }
      }
    }

    /** Copies a chunk into the file at its offset, up to where the stream breaks off. */
    method WriteChunk(start: nat, data: seq<byte>)
      requires start + |data| <= file.Length
      modifies file
      ensures file[..] == Overwritten(old(file[..]), start, data)
    {
      for i := 0 to |data|
        invariant file[..start] == old(file[..start])
        invariant file[start..start + i] == data[..i]
        invariant file[start + i..] == old(file[start + i..])
      {
        file[start + i] := data[i];
        assert file[start..start + i + 1] == file[start..start + i] + [data[i]];
        assert file[start + i + 1..] == old(file[start + i + 1..]);
      }
      assert file[..] == file[..start] + file[start..start + |data|] + file[start + |data|..];
    }

    method UploadChunk(caller: Caller, index: int, payload: Option<seq<byte>>, failsAfter: Option<nat>)
        returns (reply: Reply)
      modifies this, file
      ensures (Now(), reply) == Handle(old(Now()), Chunk(caller, index, payload, failsAfter))
    {
      if !alive { return NotFound; }
      if caller != owner { return Denied; }
      if index < 0 || index >= Total(file.Length) { return BadIndex; }
      var size := if payload.Some? then |payload.value| else -1;
      if size != ExpectedLength(file.Length, index) { return BadSize; }
      SliceFits(file.Length, index);
      WriteChunk(index * CHUNK_SIZE, Landed(payload.value, failsAfter));
      if failsAfter.Some? { return WriteFailed; }
      received := received + {index};
      reply := Received(Listed(Total(file.Length), received, true));
    }

    method UploadStatus(caller: Caller) returns (reply: Reply)
      ensures (Now(), reply) == Handle(Now(), Status(caller))
    {
      if !alive { return NotFound; }
      if caller != owner { return Denied; }
      reply := Received(Listed(Total(file.Length), received, true));
    }

    method UploadComplete(caller: Caller, present: bool) returns (reply: Reply)
      modifies `alive
      ensures (Now(), reply) == Handle(old(Now()), Complete(caller, present))
    {
      if !alive { return NotFound; }
      if caller != owner { return Denied; }
      var missing := Missing();
      if missing != [] { return Incomplete(missing); }
      alive := false;
      if !present { return Corrupted; }
      reply := Committed(file[..]);
    }

    method UploadAbort(caller: Caller) returns (reply: Reply)
      modifies `alive
      ensures (Now(), reply) == Handle(old(Now()), Abort(caller))
    {
      if !alive { return NotFound; }
      if caller != owner { return Denied; }
      alive := false;
      reply := Aborted;
    }
  }
}
