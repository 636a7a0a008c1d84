/** How the browser client cuts a file into chunks and where a resume starts. */
module ChunkPlan {
  import opened Common

  /** `Math.max(1, Math.ceil(size / CHUNK_SIZE))` */
  function TotalChunks(size: nat, c: nat): nat
    requires c > 0
  {
    Max(1, (size + c - 1) / c)
  }

  function ChunkSize(size: nat, c: nat, i: nat): int {
    Min(c, size - i * c)
  }

  /** `file.slice(i * C, (i + 1) * C)`; the platform clamps both ends to the file. */
  function Slice(file: Bytes, c: nat, i: nat): Bytes {
    var lo, hi := Min(i * c, |file|), Min((i + 1) * c, |file|);
    assert (i + 1) * c == i * c + c;
    file[lo..hi]
  }

  function Slices(file: Bytes, c: nat, k: nat): (s: seq<Bytes>)
    ensures |s| == k
  {
    seq(k, i requires 0 <= i < k => Slice(file, c, i))
  }

  /** The total is the one n whose last chunk is the first to reach the end of the file. */
  lemma TotalChunksBounds(size: nat, c: nat)
    requires c > 0
    ensures var n := TotalChunks(size, c);
            n >= 1 && size <= n * c && (n - 1) * c <= size && (size > 0 ==> (n - 1) * c < size)
  {
    var q := (size + c - 1) / c;
    assert q * c <= size + c - 1 < (q + 1) * c;
    assert (q + 1) * c == q * c + c && (q - 1) * c == q * c - c;
    if q < 1 {
      assert q * c <= 0 by { assert q == 0; }
    }
  }

  lemma ScaleMonotone(a: nat, b: nat, c: nat)
    requires a <= b
    ensures a * c <= b * c
  {
  }

  /** Every planned chunk lies inside the file, so its length is exactly `chunkSize(i)`. */
  lemma SliceLength(file: Bytes, c: nat, i: nat)
    requires c > 0 && i < TotalChunks(|file|, c)
    ensures 0 <= ChunkSize(|file|, c, i) == |Slice(file, c, i)|
    ensures i * c + |Slice(file, c, i)| == Min((i + 1) * c, |file|)
  {
    TotalChunksBounds(|file|, c);
    ScaleMonotone(i, TotalChunks(|file|, c) - 1, c);
    assert (i + 1) * c == i * c + c;
  }

  lemma SliceContinues(file: Bytes, c: nat, i: nat)
    ensures file[..Min(i * c, |file|)] + Slice(file, c, i) == file[..Min((i + 1) * c, |file|)]
  {
    assert (i + 1) * c == i * c + c;
    var lo, hi := Min(i * c, |file|), Min((i + 1) * c, |file|);
    assert file[..lo] + file[lo..hi] == file[..hi];
  }

  /** The first k slices are consecutive: together they are the first k * C bytes. */
  lemma {:induction false} SlicesPrefix(file: Bytes, c: nat, k: nat)
    ensures Concat(Slices(file, c, k)) == file[..Min(k * c, |file|)]
  {
    if k > 0 {
      SlicesPrefix(file, c, k - 1);
      SliceContinues(file, c, k - 1);
      assert Slices(file, c, k) == Slices(file, c, k - 1) + [Slice(file, c, k - 1)];
      ConcatSnoc(Slices(file, c, k - 1), Slice(file, c, k - 1));
    }
  }

  /** All planned slices concatenate to the file, the empty file included. */
  lemma SlicesCoverFile(file: Bytes, c: nat)
    requires c > 0
    ensures Concat(Slices(file, c, TotalChunks(|file|, c))) == file
  {
    TotalChunksBounds(|file|, c);
    SlicesPrefix(file, c, TotalChunks(|file|, c));
  }

  /** Chunk i counts as received when the recorded size is the planned one. */
  predicate Received(have: map<nat, nat>, size: nat, c: nat, i: nat) {
    i in have && have[i] == ChunkSize(size, c, i)
  }

  /** The chunk index a resume starts from: the first planned chunk not yet received. */
  function ResumeIndex(have: map<nat, nat>, size: nat, c: nat, from: nat): (r: nat)
    requires c > 0 && from <= TotalChunks(size, c)
    ensures from <= r <= TotalChunks(size, c)
    ensures forall i | from <= i < r :: Received(have, size, c, i)
    ensures r < TotalChunks(size, c) ==> !Received(have, size, c, r)
    decreases TotalChunks(size, c) - from
  {
    if from < TotalChunks(size, c) && Received(have, size, c, from)
    then ResumeIndex(have, size, c, from + 1)
    else from
  }

  /** The resume loop: skip the leading chunks the server already has whole. */
  method SkipReceived(have: map<nat, nat>, size: nat, c: nat) returns (startIndex: nat, uploaded: nat)
    requires c > 0
    ensures startIndex == ResumeIndex(have, size, c, 0)
    ensures forall i | 0 <= i < startIndex :: i in have && have[i] == Min(c, size - i * c)
    ensures startIndex in have && have[startIndex] == Min(c, size - startIndex * c) ==>
              startIndex == TotalChunks(size, c)
    ensures uploaded == Min(startIndex * c, size)
  {
    var totalChunks := TotalChunks(size, c);
    startIndex, uploaded := 0, 0;
    for i := 0 to totalChunks
      invariant startIndex == i && uploaded == Min(i * c, size)
      invariant ResumeIndex(have, size, c, 0) == ResumeIndex(have, size, c, i)
    {
      if i in have && have[i] == ChunkSize(size, c, i) {
        AdvanceProgress(size, c, i);
        uploaded := uploaded + ChunkSize(size, c, i);
        startIndex := i + 1;
      } else {
        break;
      }
    }
    ResumeSkips(have, size, c);
  }

  lemma ResumeSkips(have: map<nat, nat>, size: nat, c: nat)
    requires c > 0
    ensures forall i | 0 <= i < ResumeIndex(have, size, c, 0) :: i in have && have[i] == Min(c, size - i * c)
    ensures var r := ResumeIndex(have, size, c, 0);
            r in have && have[r] == Min(c, size - r * c) ==> r == TotalChunks(size, c)
  {
    var r := ResumeIndex(have, size, c, 0);
    forall i | 0 <= i < r ensures i in have && have[i] == Min(c, size - i * c) {
      assert Received(have, size, c, i);
    }
  }

  /** One more chunk moves the progress counter to the next multiple of C, capped at the size. */
  lemma AdvanceProgress(size: nat, c: nat, i: nat)
    requires c > 0 && i < TotalChunks(size, c)
    ensures 0 <= ChunkSize(size, c, i)
    ensures Min(i * c, size) + ChunkSize(size, c, i) == Min((i + 1) * c, size)
  {
    TotalChunksBounds(size, c);
    ScaleMonotone(i, TotalChunks(size, c) - 1, c);
    assert (i + 1) * c == i * c + c;
  }
}
