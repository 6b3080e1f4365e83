/** Which chunk and entry tables describe a legal archive, and the validator that decides it. */
module Layout {
  import opened Prelude
  import Bits

  // ---- sums over a table -----------------------------------------------------------

  function Sum(w: seq<nat>, lo: nat, hi: nat): nat
    requires lo <= hi <= |w|
  {
    if lo == hi then 0 else Sum(w, lo, hi - 1) + w[hi - 1]
  }

  lemma {:induction false} SumSplit(w: seq<nat>, lo: nat, mid: nat, hi: nat)
    requires lo <= mid <= hi <= |w|
    ensures Sum(w, lo, hi) == Sum(w, lo, mid) + Sum(w, mid, hi)
  {
    if mid < hi {
      SumSplit(w, lo, mid, hi - 1);
    }
  }

  lemma {:induction false} SumPrefix(w: seq<nat>, v: seq<nat>, lo: nat, hi: nat)
    requires lo <= hi <= |w| && hi <= |v| && w[..hi] == v[..hi]
    ensures Sum(w, lo, hi) == Sum(v, lo, hi)
  {
    if lo < hi {
      assert w[..hi][..hi - 1] == w[..hi - 1] && v[..hi][..hi - 1] == v[..hi - 1];
      assert w[..hi][hi - 1] == v[..hi][hi - 1];
      SumPrefix(w, v, lo, hi - 1);
    }
  }

  function Originals(chunks: seq<Chunk>): (w: seq<nat>)
    ensures |w| == |chunks| && forall i :: 0 <= i < |w| ==> w[i] == chunks[i].originalSize
  {
    seq(|chunks|, i requires 0 <= i < |chunks| => chunks[i].originalSize)
  }

  function Storeds(chunks: seq<Chunk>): (w: seq<nat>)
    ensures |w| == |chunks| && forall i :: 0 <= i < |w| ==> w[i] == chunks[i].storedSize
  {
    seq(|chunks|, i requires 0 <= i < |chunks| => chunks[i].storedSize)
  }

  // ---- legality --------------------------------------------------------------------

  datatype Rules = Rules(tocOffset: u64, chunkSize: u32, alignment: u32, aead: bool, maxTotal: u64)

  function Overhead(aead: bool): nat {
    if aead then AEAD_OVERHEAD else 0
  }

  function End(c: Chunk): nat {
    c.offset + c.storedSize
  }

  predicate LegalChunk(c: Chunk, p: Rules)
    requires p.alignment > 0
  {
    && 0 < c.originalSize <= p.chunkSize
    && c.storedSize > Overhead(p.aead)
    && (if c.compressed then c.storedSize - Overhead(p.aead) < c.originalSize
        else c.storedSize - Overhead(p.aead) == c.originalSize)
    && HEADER_SIZE <= c.offset && c.offset % p.alignment == 0
    && End(c) <= p.tocOffset
  }

  /** Chunks lie in order, apart from each other, inside the payload region, within the total. */
  ghost predicate LegalChunks(chunks: seq<Chunk>, p: Rules)
    requires p.alignment > 0
  {
    && (forall i :: 0 <= i < |chunks| ==> LegalChunk(chunks[i], p))
    && (forall i, j :: 0 <= i < j < |chunks| ==> End(chunks[i]) <= chunks[j].offset)
    && Sum(Originals(chunks), 0, |chunks|) <= p.maxTotal
  }

  predicate Owns(e: TocEntry, k: int) {
    e.firstChunk <= k < e.firstChunk + e.chunkCount
  }

  /** An entry is the sum of its chunks, and only its last chunk may be short. */
  ghost predicate LegalEntry(e: TocEntry, chunks: seq<Chunk>, chunkSize: u32) {
    && e.firstChunk + e.chunkCount <= |chunks|
    && e.originalSize == Sum(Originals(chunks), e.firstChunk, e.firstChunk + e.chunkCount)
    && e.storedSize == Sum(Storeds(chunks), e.firstChunk, e.firstChunk + e.chunkCount)
    && (forall k :: e.firstChunk <= k < e.firstChunk + e.chunkCount - 1 ==>
            chunks[k].originalSize == chunkSize)
  }

  ghost predicate Disjoint(entries: seq<TocEntry>) {
    forall i, j, k :: 0 <= i < j < |entries| && Owns(entries[i], k) ==> !Owns(entries[j], k)
  }

  ghost predicate Covered(entries: seq<TocEntry>, k: int) {
    exists i :: 0 <= i < |entries| && Owns(entries[i], k)
  }

  ghost predicate LegalTables(entries: seq<TocEntry>, chunks: seq<Chunk>, p: Rules)
    requires p.alignment > 0
  {
    && LegalChunks(chunks, p)
    && (forall i :: 0 <= i < |entries| ==> LegalEntry(entries[i], chunks, p.chunkSize))
    && Disjoint(entries)
    && (forall k :: 0 <= k < |chunks| ==> Covered(entries, k))
  }

  // ---- the validator ---------------------------------------------------------------

  predicate ChunkTableError(e: Error) {
    || e in {ArchiveTooLarge, TooLarge(TotalDecompressed)}
    || e in {Corrupt(EncryptedChunkTruncated), Corrupt(ChunkOriginalSize), Corrupt(ChunkStoredSize),
             Corrupt(NonBeneficial), Corrupt(RawChunkSize), Corrupt(ChunkAlignment),
             Corrupt(ChunkOrder), Corrupt(ChunkRangeOverflow), Corrupt(ChunkOutsidePayload)}
  }

  /** One chunk record; returns where the chunk ends. */
  method ValidateChunk(c: Chunk, p: Rules, previousEnd: nat) returns (r: Result<nat>)
    requires p.alignment > 0
    ensures r.Ok? <==> LegalChunk(c, p) && previousEnd <= c.offset
    ensures r.Ok? ==> r.value == End(c)
    ensures r.Err? ==> ChunkTableError(r.error) && r.error != ArchiveTooLarge
  {
    if p.aead && c.storedSize < AEAD_OVERHEAD {
      return Err(Corrupt(EncryptedChunkTruncated));
    }
    var payload := c.storedSize - Overhead(p.aead);
    if !(c.originalSize != 0 && c.originalSize <= p.chunkSize) {
      return Err(Corrupt(ChunkOriginalSize));
    }
    if !(payload != 0 && payload <= c.originalSize) {
      return Err(Corrupt(ChunkStoredSize));
    }
    if !(!c.compressed || payload < c.originalSize) {
      return Err(Corrupt(NonBeneficial));
    }
    if !(c.compressed || payload == c.originalSize) {
      return Err(Corrupt(RawChunkSize));
    }
    if !(c.offset >= HEADER_SIZE && c.offset % p.alignment == 0) {
      return Err(Corrupt(ChunkAlignment));
    }
    if c.offset < previousEnd {
      return Err(Corrupt(ChunkOrder));
    }
    if c.offset + c.storedSize >= POW64 {
      return Err(Corrupt(ChunkRangeOverflow));
    }
    var end := c.offset + c.storedSize;
    if end > p.tocOffset {
      return Err(Corrupt(ChunkOutsidePayload));
    }
    r := Ok(end);
  }

  method ValidateChunks(chunks: seq<Chunk>, p: Rules) returns (r: Result<Unit>)
    requires p.alignment > 0
    ensures r.Ok? <==> LegalChunks(chunks, p)
    ensures r.Err? ==> ChunkTableError(r.error)
    ensures r == Err(ArchiveTooLarge) ==> Sum(Originals(chunks), 0, |chunks|) > p.maxTotal
  {
    hide LegalChunk, LegalChunks, InOrder, ChunkTableError, Originals;
    var previousEnd := HEADER_SIZE;
    var total := 0;
    NoneYet(chunks, p);
    for i := 0 to |chunks|
      invariant InOrder(chunks, p, i, previousEnd)
      invariant total == Sum(Originals(chunks), 0, i) <= p.maxTotal
    {
      OneMore(chunks, p, i, previousEnd);
      TotalGrows(chunks, p, i);
      var end :- ValidateChunk(chunks[i], p, previousEnd);
      if total + chunks[i].originalSize >= POW64 {
        return Err(TooLarge(TotalDecompressed));
      }
      total := total + chunks[i].originalSize;
      if total > p.maxTotal {
        return Err(ArchiveTooLarge);
      }
      previousEnd := end;
    }
    AllInOrder(chunks, p, previousEnd);
    r := Ok(Unit);
  }

  /** The first n chunks are legal, in order and disjoint, and end where they say. */
  ghost predicate InOrder(chunks: seq<Chunk>, p: Rules, n: nat, previousEnd: nat)
    requires p.alignment > 0 && n <= |chunks|
  {
    && previousEnd == (if n == 0 then HEADER_SIZE else End(chunks[n - 1]))
    && (forall j :: 0 <= j < n ==> LegalChunk(chunks[j], p) && End(chunks[j]) <= previousEnd)
    && (forall j, k :: 0 <= j < k < n ==> End(chunks[j]) <= chunks[k].offset)
  }

  lemma NoneYet(chunks: seq<Chunk>, p: Rules)
    requires p.alignment > 0
    ensures InOrder(chunks, p, 0, HEADER_SIZE)
  {
  }

  /** A chunk that is illegal or starts too early spoils the table; any other extends it. */
  lemma OneMore(chunks: seq<Chunk>, p: Rules, n: nat, previousEnd: nat)
    requires p.alignment > 0 && n < |chunks| && InOrder(chunks, p, n, previousEnd)
    ensures if LegalChunk(chunks[n], p) && previousEnd <= chunks[n].offset
            then InOrder(chunks, p, n + 1, End(chunks[n])) else !LegalChunks(chunks, p)
  {
    hide LegalChunk;
    LegalOffset(chunks[n], p);
  }

  lemma TotalGrows(chunks: seq<Chunk>, p: Rules, n: nat)
    requires p.alignment > 0 && n < |chunks|
    ensures Sum(Originals(chunks), 0, n + 1) == Sum(Originals(chunks), 0, n) + chunks[n].originalSize
    ensures Sum(Originals(chunks), 0, n + 1) <= Sum(Originals(chunks), 0, |chunks|)
    ensures Sum(Originals(chunks), 0, n + 1) > p.maxTotal ==> !LegalChunks(chunks, p)
    ensures ChunkTableError(TooLarge(TotalDecompressed)) && ChunkTableError(ArchiveTooLarge)
  {
    SumSplit(Originals(chunks), 0, n + 1, |chunks|);
  }

  lemma AllInOrder(chunks: seq<Chunk>, p: Rules, previousEnd: nat)
    requires p.alignment > 0 && InOrder(chunks, p, |chunks|, previousEnd)
    requires Sum(Originals(chunks), 0, |chunks|) <= p.maxTotal
    ensures LegalChunks(chunks, p)
  {
    hide LegalChunk;
  }

  lemma LegalOffset(c: Chunk, p: Rules)
    requires p.alignment > 0
    ensures LegalChunk(c, p) ==> HEADER_SIZE <= c.offset <= End(c)
  {
  }

  /** Stored bytes of neighbouring chunks fit between the first offset and the last end. */
  lemma {:induction false} StoredSpan(chunks: seq<Chunk>, p: Rules, lo: nat, hi: nat)
    requires p.alignment > 0 && LegalChunks(chunks, p) && lo < hi <= |chunks|
    ensures chunks[lo].offset + Sum(Storeds(chunks), lo, hi) <= End(chunks[hi - 1])
  {
    if lo + 1 < hi {
      StoredSpan(chunks, p, lo, hi - 1);
    }
  }

  lemma SpanBounds(chunks: seq<Chunk>, p: Rules, lo: nat, hi: nat)
    requires p.alignment > 0 && LegalChunks(chunks, p) && lo <= hi <= |chunks|
    ensures Sum(Originals(chunks), lo, hi) <= p.maxTotal
    ensures Sum(Storeds(chunks), lo, hi) <= p.tocOffset
    ensures lo < hi ==> Sum(Originals(chunks), lo, hi) > 0
  {
    SumSplit(Originals(chunks), 0, lo, |chunks|);
    SumSplit(Originals(chunks), lo, hi, |chunks|);
    if lo < hi {
      StoredSpan(chunks, p, lo, hi);
      assert LegalChunk(chunks[hi - 1], p);
    }
  }

  predicate UnreachableEntryError(e: Error) {
    e in {Corrupt(EntryRangeOverflow), Corrupt(EntryRawOverflow), Corrupt(EntryStoredOverflow)}
  }

  /** The chunks of one entry: marks them and adds up their sizes. */
  method ClaimChunks(first: nat, end: nat, chunks: seq<Chunk>, p: Rules, used: array<bool>)
    returns (r: Result<(nat, nat)>)
    requires p.alignment > 0 && LegalChunks(chunks, p) && used.Length == |chunks|
    requires first <= end <= |chunks|
    modifies used
    ensures r.Ok? <==>
            && (forall k :: first <= k < end ==> !old(used[k]))
            && (forall k :: first <= k < end - 1 ==> chunks[k].originalSize == p.chunkSize)
    ensures r.Ok? ==>
              && r.value == (Sum(Originals(chunks), first, end), Sum(Storeds(chunks), first, end))
              && forall k :: 0 <= k < |chunks| ==> used[k] == (old(used[k]) || first <= k < end)
    ensures r.Err? ==> r.error == Corrupt(NonFinalChunkSize) || r.error == Corrupt(SharedChunk)
    ensures r == Err(Corrupt(SharedChunk)) ==> exists k :: first <= k < end && old(used[k])
  {
    hide LegalChunks, Originals, Storeds;
    var rawTotal, storedTotal := 0, 0;
    for k := first to end
      invariant rawTotal == Sum(Originals(chunks), first, k)
      invariant storedTotal == Sum(Storeds(chunks), first, k)
      invariant forall j :: first <= j < k ==> !old(used[j])
      invariant forall j :: first <= j < k && j < end - 1 ==> chunks[j].originalSize == p.chunkSize
      invariant forall j :: 0 <= j < |chunks| ==> used[j] == (old(used[j]) || first <= j < k)
    {
      SpanBounds(chunks, p, first, k + 1);
      if used[k] {
        return Err(Corrupt(SharedChunk));
      }
      used[k] := true;
      if rawTotal + chunks[k].originalSize >= POW64 {
        return Err(Corrupt(EntryRawOverflow));
      }
      rawTotal := rawTotal + chunks[k].originalSize;
      if storedTotal + chunks[k].storedSize >= POW64 {
        return Err(Corrupt(EntryStoredOverflow));
      }
      storedTotal := storedTotal + chunks[k].storedSize;
      if !(k + 1 == end || chunks[k].originalSize == p.chunkSize) {
        return Err(Corrupt(NonFinalChunkSize));
      }
    }
    r := Ok((rawTotal, storedTotal));
  }

  /** One entry: it must be legal and own nothing that is already taken. */
  method ValidateEntry(e: TocEntry, chunks: seq<Chunk>, p: Rules, used: array<bool>)
    returns (r: Result<Unit>)
    requires p.alignment > 0 && LegalChunks(chunks, p) && used.Length == |chunks|
    modifies used
    ensures r.Ok? <==> LegalEntry(e, chunks, p.chunkSize)
                       && forall k :: 0 <= k < |chunks| && Owns(e, k) ==> !old(used[k])
    ensures r.Ok? ==> forall k :: 0 <= k < |chunks| ==> used[k] == (old(used[k]) || Owns(e, k))
    ensures r.Err? ==> !ChunkTableError(r.error) && r.error != Corrupt(OrphanChunk)
                       && !UnreachableEntryError(r.error)
    ensures r == Err(Corrupt(SharedChunk)) ==>
              exists k :: 0 <= k < |chunks| && Owns(e, k) && old(used[k])
  {
    hide LegalChunks, Originals, Storeds, Sum;
    var first, count := e.firstChunk, e.chunkCount;
    if first + count >= POW64 {
      return Err(Corrupt(EntryRangeOverflow));
    }
    var end := first + count;
    if end > |chunks| {
      return Err(Corrupt(EntryRangeOutside));
    }
    EmptySums(chunks, first, end);
    SpanBounds(chunks, p, first, end);
    match (e.originalSize == 0, count == 0, e.storedSize == 0) {
      case (true, true, true) =>
      case (false, false, _) =>
      case (true, _, _) => return Err(Corrupt(EmptyEntryHasChunks));
      case (false, true, _) => return Err(Corrupt(EntryHasNoChunks));
    }
    var totals :- ClaimChunks(first, end, chunks, p, used);
    if totals.0 != e.originalSize {
      return Err(Corrupt(EntryOriginalMismatch));
    }
    if totals.1 != e.storedSize {
      return Err(Corrupt(EntryStoredMismatch));
    }
    r := Ok(Unit);
  }

  lemma EmptySums(chunks: seq<Chunk>, first: nat, end: nat)
    requires first <= end <= |chunks|
    ensures first == end ==> Sum(Originals(chunks), first, end) == 0 == Sum(Storeds(chunks), first, end)
  {
  }

  /** Accepts exactly the legal tables. The range and sum overflow errors of single entries
      never come up, and an orphan is only reported when nothing else is wrong. */
  method ValidateLayout(entries: seq<TocEntry>, chunks: seq<Chunk>, p: Rules)
    returns (r: Result<Unit>)
    requires p.alignment > 0
    ensures r.Ok? <==> LegalTables(entries, chunks, p)
    ensures r.Err? && ChunkTableError(r.error) <==> !LegalChunks(chunks, p)
    ensures r.Err? ==> !UnreachableEntryError(r.error)
    ensures r == Err(Corrupt(SharedChunk)) ==> !Disjoint(entries)
    ensures r == Err(Corrupt(OrphanChunk)) <==>
            && LegalChunks(chunks, p)
            && (forall i :: 0 <= i < |entries| ==> LegalEntry(entries[i], chunks, p.chunkSize))
            && Disjoint(entries)
            && exists k :: 0 <= k < |chunks| && !Covered(entries, k)
  {
    hide LegalChunks, LegalEntry;
    var _ :- ValidateChunks(chunks, p);
    var used := new bool[|chunks|](_ => false);
    for i := 0 to |entries|
      invariant fresh(used)
      invariant forall j :: 0 <= j < i ==> LegalEntry(entries[j], chunks, p.chunkSize)
      invariant Disjoint(entries[..i])
      invariant forall k :: 0 <= k < |chunks| ==> used[k] == Covered(entries[..i], k)
    {
      ghost var before := used[..];
      EntryInTables(entries, i, chunks);
      var _ :- ValidateEntry(entries[i], chunks, p, used);
      EntryInside(entries[i], chunks, p.chunkSize);
      DisjointSnoc(entries, i, |chunks|);
      forall k | 0 <= k < |chunks|
        ensures used[k] == Covered(entries[..i + 1], k)
      {
        assert before[k] == Covered(entries[..i], k);
        CoveredSnoc(entries, i, k);
      }
    }
    assert entries[..|entries|] == entries;
    for k := 0 to |chunks|
      invariant forall j :: 0 <= j < k ==> used[j]
    {
      if !used[k] {
        return Err(Corrupt(OrphanChunk));
      }
    }
    r := Ok(Unit);
  }

  lemma EntryInside(e: TocEntry, chunks: seq<Chunk>, chunkSize: u32)
    requires LegalEntry(e, chunks, chunkSize)
    ensures e.firstChunk + e.chunkCount <= |chunks|
  {
  }

  lemma CoveredSnoc(entries: seq<TocEntry>, i: nat, k: int)
    requires i < |entries|
    ensures Covered(entries[..i + 1], k) <==> Covered(entries[..i], k) || Owns(entries[i], k)
  {
    if Covered(entries[..i], k) {
      var j :| 0 <= j < i && Owns(entries[..i][j], k);
      assert entries[..i + 1][j] == entries[j];
    }
    if Owns(entries[i], k) {
      assert entries[..i + 1][i] == entries[i];
    }
  }

  /** If entry i shares a chunk with an earlier entry, the tables overlap. */
  lemma EntryInTables(entries: seq<TocEntry>, i: nat, chunks: seq<Chunk>)
    requires i < |entries|
    ensures (exists k :: 0 <= k < |chunks| && Owns(entries[i], k) && Covered(entries[..i], k)) ==>
              !Disjoint(entries)
  {
    if k :| 0 <= k < |chunks| && Owns(entries[i], k) && Covered(entries[..i], k) {
      var j :| 0 <= j < i && Owns(entries[..i][j], k);
      assert Owns(entries[j], k);
    }
  }

  lemma DisjointSnoc(entries: seq<TocEntry>, i: nat, n: nat)
    requires i < |entries| && Disjoint(entries[..i])
    requires entries[i].firstChunk + entries[i].chunkCount <= n
    requires forall k :: 0 <= k < n && Owns(entries[i], k) ==> !Covered(entries[..i], k)
    ensures Disjoint(entries[..i + 1])
  {
    var all := entries[..i + 1];
    forall a, b, k | 0 <= a < b < |all| && Owns(all[a], k)
      ensures !Owns(all[b], k)
    {
      if b < i {
        assert entries[..i][a] == entries[a] && entries[..i][b] == entries[b];
      } else if Owns(entries[i], k) {
        assert Owns(entries[..i][a], k);
        assert Covered(entries[..i], k);
      }
    }
  }

  // ---- what legality means for a reader --------------------------------------------

  /** Local chunk k of an entry starts at byte k * chunkSize of the asset. */
  lemma {:induction false} LocalChunkStart(e: TocEntry, chunks: seq<Chunk>, chunkSize: u32, k: nat)
    requires LegalEntry(e, chunks, chunkSize) && k < e.chunkCount
    ensures Sum(Originals(chunks), e.firstChunk, e.firstChunk + k) == k * chunkSize
  {
    if k > 0 {
      LocalChunkStart(e, chunks, chunkSize, k - 1);
      assert chunks[e.firstChunk + k - 1].originalSize == chunkSize;
      assert (k - 1) * chunkSize + chunkSize == k * chunkSize;
    }
  }

  function CeilDiv(a: nat, b: nat): nat
    requires b > 0
  {
    (a + b - 1) / b
  }

  /** An accepted entry has ceil(size / chunkSize) chunks: all full, but for the last. */
  lemma EntryShape(e: TocEntry, chunks: seq<Chunk>, p: Rules)
    requires p.alignment > 0 && LegalChunks(chunks, p) && LegalEntry(e, chunks, p.chunkSize)
    requires p.chunkSize > 0
    ensures e.chunkCount == CeilDiv(e.originalSize, p.chunkSize)
    ensures e.chunkCount > 0 ==>
              && (e.chunkCount - 1) * p.chunkSize < e.originalSize <= e.chunkCount * p.chunkSize
              && chunks[e.firstChunk + e.chunkCount - 1].originalSize ==
                 e.originalSize - (e.chunkCount - 1) * p.chunkSize
    ensures e.chunkCount == 0 <==> e.originalSize == 0
  {
    hide CeilDiv;
    var n := e.chunkCount;
    if n > 0 {
      var last := chunks[e.firstChunk + n - 1];
      assert LegalChunk(last, p);
      LocalChunkStart(e, chunks, p.chunkSize, n - 1);
      CeilDivIs(e.originalSize, p.chunkSize, n, last.originalSize);
    } else {
      CeilDivZero(p.chunkSize);
    }
  }

  lemma CeilDivZero(b: nat)
    requires b > 0
    ensures CeilDiv(0, b) == 0
  {
    Bits.RemainderIs(b - 1, b, 0, b - 1);
  }

  lemma CeilDivIs(a: nat, b: nat, n: nat, last: nat)
    requires n > 0 && 0 < last <= b && a == (n - 1) * b + last
    ensures CeilDiv(a, b) == n && (n - 1) * b < a <= n * b
  {
    assert n * b == (n - 1) * b + b;
    Bits.RemainderIs(a + b - 1, b, n, last - 1);
  }

  function Min(a: nat, b: nat): nat {
    if a < b then a else b
  }

  function PieceSize(total: nat, s: nat, k: nat): nat {
    if k * s >= total then 0 else Min(s, total - k * s)
  }

  /** Piece k of some data cut at multiples of s. */
  function Piece(data: bytes, s: nat, k: nat): bytes {
    if k * s < |data| then data[k * s..Min((k + 1) * s, |data|)] else []
  }

  // ---- conservation ----------------------------------------------------------------

  /** The entries' share of a quantity spread over the chunks. */
  ghost function EntrySums(entries: seq<TocEntry>, w: seq<nat>): nat
    requires Inside(entries, |w|)
  {
    if entries == [] then 0
    else
      var e := entries[|entries| - 1];
      EntrySums(entries[..|entries| - 1], w) + Sum(w, e.firstChunk, e.firstChunk + e.chunkCount)
  }

  ghost predicate Inside(entries: seq<TocEntry>, n: nat) {
    forall i :: 0 <= i < |entries| ==> entries[i].firstChunk + entries[i].chunkCount <= n
  }

  /** The part of a quantity that lies in chunks below `hi` with an owner. */
  ghost function OwnedSum(entries: seq<TocEntry>, w: seq<nat>, hi: nat): nat
    requires hi <= |w|
  {
    if hi == 0 then 0
    else OwnedSum(entries, w, hi - 1) + if Covered(entries, hi - 1) then w[hi - 1] else 0
  }

  lemma {:induction false} OwnedSumStep(entries: seq<TocEntry>, i: nat, w: seq<nat>, hi: nat)
    requires i < |entries| && hi <= |w| && Disjoint(entries)
    ensures var e := entries[i];
            OwnedSum(entries[..i + 1], w, hi) ==
            OwnedSum(entries[..i], w, hi)
              + Sum(w, Min(e.firstChunk, hi), Min(e.firstChunk + e.chunkCount, hi))
  {
    if hi > 0 {
      OwnedSumStep(entries, i, w, hi - 1);
      CoveredSnoc(entries, i, hi - 1);
    }
  }

  lemma {:induction false} OwnedSumIsEntrySums(entries: seq<TocEntry>, i: nat, w: seq<nat>)
    requires i <= |entries| && Disjoint(entries) && Inside(entries, |w|)
    ensures OwnedSum(entries[..i], w, |w|) == EntrySums(entries[..i], w)
  {
    if i == 0 {
      NothingOwned(w, |w|);
    } else {
      OwnedSumIsEntrySums(entries, i - 1, w);
      OwnedSumStep(entries, i - 1, w, |w|);
      assert entries[..i][..i - 1] == entries[..i - 1];
    }
  }

  lemma {:induction false} NothingOwned(w: seq<nat>, hi: nat)
    requires hi <= |w|
    ensures OwnedSum([], w, hi) == 0
  {
    if hi > 0 {
      NothingOwned(w, hi - 1);
    }
  }

  lemma {:induction false} AllOwned(entries: seq<TocEntry>, w: seq<nat>, hi: nat)
    requires hi <= |w| && forall k :: 0 <= k < hi ==> Covered(entries, k)
    ensures OwnedSum(entries, w, hi) == Sum(w, 0, hi)
  {
    if hi > 0 {
      AllOwned(entries, w, hi - 1);
    }
  }

  /** Any quantity spread over the chunks is conserved by the split into entries. */
  lemma Conservation(entries: seq<TocEntry>, w: seq<nat>)
    requires Disjoint(entries) && Inside(entries, |w|)
    requires forall k :: 0 <= k < |w| ==> Covered(entries, k)
    ensures EntrySums(entries, w) == Sum(w, 0, |w|)
  {
    assert entries[..|entries|] == entries;
    OwnedSumIsEntrySums(entries, |entries|, w);
    AllOwned(entries, w, |w|);
  }

  function TotalOf(entries: seq<TocEntry>, size: TocEntry -> nat): nat {
    if entries == [] then 0
    else TotalOf(entries[..|entries| - 1], size) + size(entries[|entries| - 1])
  }

  lemma {:induction false} TotalsAre(entries: seq<TocEntry>, w: seq<nat>, size: TocEntry -> nat)
    requires Inside(entries, |w|)
    requires forall e :: e in entries ==> size(e) == Sum(w, e.firstChunk, e.firstChunk + e.chunkCount)
    ensures TotalOf(entries, size) == EntrySums(entries, w)
  {
    if entries != [] {
      TotalsAre(entries[..|entries| - 1], w, size);
    }
  }

  function Ones(n: nat): (w: seq<nat>)
    ensures |w| == n && forall i :: 0 <= i < n ==> w[i] == 1
  {
    seq(n, _ => 1)
  }

  lemma {:induction false} SumOfOnes(n: nat, lo: nat, hi: nat)
    requires lo <= hi <= n
    ensures Sum(Ones(n), lo, hi) == hi - lo
  {
    if lo < hi {
      SumOfOnes(n, lo, hi - 1);
    }
  }

  /** In every accepted archive the entries' chunk counts add up to the chunk table, their
      original sizes to the checked decompressed total, and their stored sizes fit in
      front of the TOC. */
  lemma TotalsConserved(entries: seq<TocEntry>, chunks: seq<Chunk>, p: Rules)
    requires p.alignment > 0 && LegalTables(entries, chunks, p)
    ensures TotalOf(entries, (e: TocEntry) => e.chunkCount) == |chunks|
    ensures TotalOf(entries, (e: TocEntry) => e.originalSize) == Sum(Originals(chunks), 0, |chunks|)
            <= p.maxTotal
    ensures TotalOf(entries, (e: TocEntry) => e.storedSize) == Sum(Storeds(chunks), 0, |chunks|)
    ensures chunks != [] ==>
              TotalOf(entries, (e: TocEntry) => e.storedSize) <= p.tocOffset - HEADER_SIZE
  {
    hide LegalChunks;
    var n := |chunks|;
    forall e | e in entries
      ensures e.firstChunk + e.chunkCount <= n
      ensures e.chunkCount == Sum(Ones(n), e.firstChunk, e.firstChunk + e.chunkCount)
      ensures LegalEntry(e, chunks, p.chunkSize)
    {
      SumOfOnes(n, e.firstChunk, e.firstChunk + e.chunkCount);
    }
    assert Inside(entries, n);
    SumOfOnes(n, 0, n);
    TotalsAre(entries, Ones(n), (e: TocEntry) => e.chunkCount);
    TotalsAre(entries, Originals(chunks), (e: TocEntry) => e.originalSize);
    TotalsAre(entries, Storeds(chunks), (e: TocEntry) => e.storedSize);
    Conservation(entries, Ones(n));
    Conservation(entries, Originals(chunks));
    Conservation(entries, Storeds(chunks));
    SpanBounds(chunks, p, 0, n);
    if n > 0 {
      StoredSpan(chunks, p, 0, n);
      EndsInside(chunks, p);
    }
    assert Sum(Originals(chunks), 0, n) <= p.maxTotal;
  }

  lemma EndsInside(chunks: seq<Chunk>, p: Rules)
    requires p.alignment > 0 && LegalChunks(chunks, p) && chunks != []
    ensures HEADER_SIZE <= chunks[0].offset && End(chunks[|chunks| - 1]) <= p.tocOffset
  {
  }

  // ---- what legality means for a file ----------------------------------------------

  /** No byte belongs to two blocks, and none outside the payload to any. */
  lemma BlocksApart(chunks: seq<Chunk>, p: Rules, x: nat, j: nat, k: nat)
    requires p.alignment > 0 && LegalChunks(chunks, p) && j < |chunks| && k < |chunks|
    requires chunks[j].offset <= x < chunks[j].offset + chunks[j].storedSize
    requires chunks[k].offset <= x < chunks[k].offset + chunks[k].storedSize
    ensures j == k && 60 <= x < p.tocOffset
  {
    hide LegalChunk;
    LegalRecord(chunks, p, j);
  }

  /** A legal record, number by number. */
  lemma LegalRecord(chunks: seq<Chunk>, p: Rules, k: nat)
    requires p.alignment > 0 && LegalChunks(chunks, p) && k < |chunks|
    ensures var c := chunks[k];
            var payload := c.storedSize - if p.aead then 40 else 0;
            && 0 < c.originalSize <= p.chunkSize && payload > 0
            && (c.compressed ==> payload < c.originalSize)
            && (!c.compressed ==> payload == c.originalSize)
            && c.offset % p.alignment == 0 && 60 <= c.offset && c.offset + c.storedSize <= p.tocOffset
  {
    assert LegalChunk(chunks[k], p);
  }

  /** Every chunk belongs to exactly one entry. */
  lemma OneOwner(entries: seq<TocEntry>, chunks: seq<Chunk>, p: Rules, k: nat) returns (i: nat)
    requires p.alignment > 0 && LegalTables(entries, chunks, p) && k < |chunks|
    ensures i < |entries| && entries[i].firstChunk <= k < entries[i].firstChunk + entries[i].chunkCount
    ensures forall j ::
              0 <= j < |entries| && entries[j].firstChunk <= k < entries[j].firstChunk + entries[j].chunkCount ==>
                j == i
  {
    hide LegalChunks, LegalEntry;
    assert Covered(entries, k);
    i :| 0 <= i < |entries| && Owns(entries[i], k);
    forall j | 0 <= j < |entries| && entries[j].firstChunk <= k < entries[j].firstChunk + entries[j].chunkCount
      ensures j == i
    {
      assert Owns(entries[j], k);
    }
  }

  // ---- visiting every chunk once ---------------------------------------------------

  function Range(first: nat, count: nat): (r: seq<nat>)
    ensures |r| == count && forall i :: 0 <= i < count ==> r[i] == first + i
  {
    seq(count, i => first + i)
  }

  /** The chunk indices in the order in which entry after entry is read. */
  function VisitOrder(entries: seq<TocEntry>): seq<nat> {
    if entries == [] then []
    else
      var e := entries[|entries| - 1];
      VisitOrder(entries[..|entries| - 1]) + Range(e.firstChunk, e.chunkCount)
  }

  function Mark(n: nat, k: nat): (w: seq<nat>)
    ensures |w| == n && forall i :: 0 <= i < n ==> w[i] == if i == k then 1 else 0
  {
    seq(n, i => if i == k then 1 else 0)
  }

  lemma {:induction false} SumOfMark(n: nat, k: nat, lo: nat, hi: nat)
    requires lo <= hi <= n
    ensures Sum(Mark(n, k), lo, hi) == if lo <= k < hi then 1 else 0
  {
    if lo < hi {
      SumOfMark(n, k, lo, hi - 1);
    }
  }

  lemma {:induction false} CountInRange(first: nat, count: nat, k: nat)
    ensures multiset(Range(first, count))[k] == if first <= k < first + count then 1 else 0
  {
    if count > 0 {
      CountInRange(first, count - 1, k);
      assert Range(first, count) == Range(first, count - 1) + [first + count - 1];
    }
  }

  lemma {:induction false} CountVisits(entries: seq<TocEntry>, n: nat, k: nat)
    requires Inside(entries, n)
    ensures multiset(VisitOrder(entries))[k] == if k < n then EntrySums(entries, Mark(n, k)) else 0
  {
    hide Mark, Range, Sum;
    if entries != [] {
      var e := entries[|entries| - 1];
      CountVisits(entries[..|entries| - 1], n, k);
      CountInRange(e.firstChunk, e.chunkCount, k);
      SumOfMark(n, k, e.firstChunk, e.firstChunk + e.chunkCount);
      CountConcat(VisitOrder(entries[..|entries| - 1]), Range(e.firstChunk, e.chunkCount), k);
    }
  }

  lemma CountConcat(a: seq<nat>, b: seq<nat>, k: nat)
    ensures multiset(a + b)[k] == multiset(a)[k] + multiset(b)[k]
  {
  }

  /** Reading every entry reads every chunk of the archive exactly once. */
  lemma EveryChunkOnce(entries: seq<TocEntry>, chunks: seq<Chunk>, p: Rules)
    requires p.alignment > 0 && LegalTables(entries, chunks, p)
    ensures multiset(VisitOrder(entries)) == multiset(Range(0, |chunks|))
  {
    hide LegalChunks, EntrySums, VisitOrder;
    var n := |chunks|;
    forall i | 0 <= i < |entries|
      ensures entries[i].firstChunk + entries[i].chunkCount <= n
    {
      assert LegalEntry(entries[i], chunks, p.chunkSize);
    }
    forall k: nat
      ensures multiset(VisitOrder(entries))[k] == multiset(Range(0, n))[k]
    {
      CountVisits(entries, n, k);
      CountInRange(0, n, k);
      if k < n {
        Conservation(entries, Mark(n, k));
        SumOfMark(n, k, 0, n);
      }
    }
  }
}
