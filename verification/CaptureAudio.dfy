/** The sound reader: a pipe cut into whole ten-millisecond chunks
    (spikes/switch-room/capture_audio.py). */
module CaptureAudio {
  import opened Common

  const CHUNK_BYTES := 1920

  /** What one non-blocking read meets: nothing yet, or up to `n` bytes (the end
      of the stream when the writer has closed and everything was read). */
  datatype Poll = Blocked | Ready(n: nat)

  /** Stopped by the caller, or at the end of the stream: whole, or inside a chunk. */
  datatype Ending = Stopped | Ended | Truncated

  function Min(a: nat, b: nat): nat {
    if a < b then a else b
  }

  /** The stream cut every `CHUNK_BYTES` bytes, the unfinished end left out. */
  function Blocks(s: seq<Byte>): seq<seq<Byte>>
    decreases |s|
  {
    if |s| < CHUNK_BYTES then [] else [s[..CHUNK_BYTES]] + Blocks(s[CHUNK_BYTES..])
  }

  ghost predicate Whole(chunks: seq<seq<Byte>>) {
    forall i :: 0 <= i < |chunks| ==> |chunks[i]| == CHUNK_BYTES
  }

  /** There is one way to cut a stream into whole chunks and less than a chunk. */
  lemma {:induction false} OneCutting(chunks: seq<seq<Byte>>, pending: seq<Byte>)
    requires Whole(chunks) && |pending| < CHUNK_BYTES
    ensures Blocks(Flatten(chunks) + pending) == chunks
    ensures |Flatten(chunks)| == CHUNK_BYTES * |chunks|
  {
    if chunks != [] {
      OneCutting(chunks[1..], pending);
      var s := Flatten(chunks) + pending;
      assert s[..CHUNK_BYTES] == chunks[0];
      assert s[CHUNK_BYTES..] == Flatten(chunks[1..]) + pending;
      assert [chunks[0]] + chunks[1..] == chunks;
    }
  }

  /** How much of a stream of this length so many reads have taken: none that finds nothing
      yet, otherwise what there is, up to what is asked for and to the end of a chunk. */
  function Taken(total: nat, polls: seq<Poll>): (n: nat)
    ensures n <= total
  {
    if polls == [] then 0
    else
      var before, poll := Taken(total, polls[..|polls| - 1]), polls[|polls| - 1];
      if poll.Blocked? then before
      else before + Min(Min(poll.n, CHUNK_BYTES - before % CHUNK_BYTES), total - before)
  }

  /** Every read that finds something takes at least a byte and at most what it finds, until
      there is nothing left; one that finds a whole chunk goes to the end of one. */
  lemma ReadsAreTaken(total: nat, polls: seq<Poll>)
    requires polls != []
    ensures var before, after := Taken(total, polls[..|polls| - 1]), Taken(total, polls);
            match polls[|polls| - 1]
            case Blocked => after == before
            case Ready(n) =>
              && before <= after <= before + n && (n > 0 && before < total ==> before < after)
              && (n >= CHUNK_BYTES ==> after == total || after % CHUNK_BYTES == 0)
  {
    ToTheEndOfAChunk(Taken(total, polls[..|polls| - 1]));
  }

  lemma ToTheEndOfAChunk(n: nat)
    ensures 0 < CHUNK_BYTES - n % CHUNK_BYTES <= CHUNK_BYTES
    ensures (n + (CHUNK_BYTES - n % CHUNK_BYTES)) % CHUNK_BYTES == 0
  {
    var chunks, rest := n / CHUNK_BYTES, n % CHUNK_BYTES;
    assert n + (CHUNK_BYTES - rest) == (chunks + 1) * CHUNK_BYTES;
  }

  /** A read meets the end of the stream: everything before it has been taken. */
  ghost predicate MeetsTheEnd(total: nat, polls: seq<Poll>, k: nat) {
    k < |polls| && polls[k].Ready? && Taken(total, polls[..k]) == total
  }

  lemma NoChunks()
    ensures Flatten<Byte>([]) == []
  {
  }

  lemma NothingTaken(total: nat)
    ensures Taken(total, []) == 0
  {
  }

  lemma NextRead(total: nat, polls: seq<Poll>, k: nat, chunks: nat, pending: nat)
    requires k < |polls| && pending < CHUNK_BYTES && Taken(total, polls[..k]) == CHUNK_BYTES * chunks + pending
    ensures Taken(total, polls[..k + 1])
            == Taken(total, polls[..k])
               + if polls[k].Blocked? then 0
                 else Min(Min(polls[k].n, CHUNK_BYTES - pending), total - Taken(total, polls[..k]))
    ensures MeetsTheEnd(total, polls, k) <==> polls[k].Ready? && Taken(total, polls[..k]) == total
  {
    assert polls[..k + 1][..k] == polls[..k];
    assert (CHUNK_BYTES * chunks + pending) % CHUNK_BYTES == pending;
  }

  lemma NoneMeetsTheEnd(total: nat, polls: seq<Poll>)
    requires forall k :: 0 <= k < |polls| ==> !MeetsTheEnd(total, polls, k)
    ensures !exists k :: MeetsTheEnd(total, polls, k)
  {
  }

  /** Some more bytes join the unfinished chunk, or finish it. */
  lemma OneRead(stream: seq<Byte>, read: nat, chunks: seq<seq<Byte>>, pending: seq<Byte>, data: seq<Byte>)
    requires read + |data| <= |stream| && data == stream[read..read + |data|]
    requires Flatten(chunks) + pending == stream[..read]
    ensures Flatten(chunks) + (pending + data) == stream[..read + |data|]
    ensures Flatten(chunks + [pending + data]) + [] == stream[..read + |data|]
  {
    hide Flatten;
    FlattenSnoc(chunks, pending + data);
    assert stream[..read] + data == stream[..read + |data|];
    assert (Flatten(chunks) + pending) + data == Flatten(chunks) + (pending + data);
  }

  /** The generator, run over one schedule of reads; the schedule ends when the
      stop event is seen. Whatever the schedule, the chunks are the stream cut
      from its beginning; only an end inside a chunk is refused, and no byte is
      dropped, repeated or reordered. It goes on through every read until one meets the end,
      or there are no more. */
  method Chunks(stream: seq<Byte>, polls: seq<Poll>)
      returns (chunks: seq<seq<Byte>>, pending: seq<Byte>, ending: Ending)
    ensures Whole(chunks) && |pending| < CHUNK_BYTES
    ensures Flatten(chunks) + pending <= stream
    ensures chunks == Blocks(Flatten(chunks) + pending)
    ensures ending != Stopped ==> chunks == Blocks(stream) && Flatten(chunks) + pending == stream
    ensures ending == Ended ==> |stream| % CHUNK_BYTES == 0
    ensures ending == Truncated ==> |stream| % CHUNK_BYTES != 0
    ensures ending != Stopped <==> exists k :: MeetsTheEnd(|stream|, polls, k)
    ensures ending == Stopped ==> |Flatten(chunks) + pending| == Taken(|stream|, polls)
  {
    hide Taken, MeetsTheEnd, Blocks, Flatten;
    chunks, pending, ending := [], [], Stopped;
    NothingTaken(|stream|);
    assert Flatten<Byte>([]) + [] == stream[..0] by { NoChunks(); }
    var read: nat, turn: nat := 0, 0;
    while turn < |polls|
      invariant Whole(chunks) && |pending| < CHUNK_BYTES && read <= |stream|
      invariant Flatten(chunks) + pending == stream[..read]
      invariant 0 <= turn <= |polls| && read == Taken(|stream|, polls[..turn])
      invariant forall k :: 0 <= k < turn ==> !MeetsTheEnd(|stream|, polls, k)
      decreases |polls| - turn
    {
      var poll := polls[turn];
      OneCutting(chunks, pending);
      NextRead(|stream|, polls, turn, |chunks|, |pending|);
      turn := turn + 1;
      if poll.Blocked? || (poll.n == 0 && read < |stream|) {
        continue;
      }
      var data := stream[read..read + Min(Min(poll.n, CHUNK_BYTES - |pending|), |stream| - read)];
      if data == [] {
        ending := if pending != [] then Truncated else Ended;
        assert stream[..read] == stream;
        return;
      }
      OneRead(stream, read, chunks, pending, data);
      read := read + |data|;
      pending := pending + data;
      if |pending| == CHUNK_BYTES {
        chunks := chunks + [pending];
        pending := [];
      }
    }
    NoneMeetsTheEnd(|stream|, polls);
    OneCutting(chunks, pending);
    assert polls[..|polls|] == polls;
  }
}
