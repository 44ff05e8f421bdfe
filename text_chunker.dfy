/**
 * app/utils/text_chunker.py: the hand-written sliding-window chunker.
 *
 * The loop `while start < L` sets `start` to `min(start + chunk_size, L) - overlap`
 * (clamped at 0) and appends the Python slice `text[start:end]`, whose end may be
 * negative. On empty text the loop never runs. On other text it leaves the loop
 * exactly when overlap <= 0 and overlap < chunk_size (`ReturnsExactly`): with a
 * positive overlap the start falls back below L after the last window, and with
 * chunk_size <= overlap it never moves forward. The method is stated for every
 * call that returns, and the lemmas below state what the loop does on the others,
 * including the configured defaults 1000/200.
 */
module TextChunker {
  import opened Wrappers
  import opened PyStr

  /** app/config.py defaults for CHUNK_SIZE and CHUNK_OVERLAP. */
  const CHUNK_SIZE: int := 1000
  const CHUNK_OVERLAP: int := 200

  /** `chunk_size` and `overlap` after the None-defaults of the function header. */
  function ResolveSettings(chunkSize: Option<int>, overlap: Option<int>): (r: (int, int))
    ensures r.0 == if chunkSize.Some? then chunkSize.value else CHUNK_SIZE
    ensures r.1 == if overlap.Some? then overlap.value else CHUNK_OVERLAP
  {
    (chunkSize.GetOr(CHUNK_SIZE), overlap.GetOr(CHUNK_OVERLAP))
  }

  /** The configurations for which the loop moves forward on every pass. */
  predicate Terminating(chunkSize: int, overlap: int) {
    overlap <= 0 && overlap < chunkSize
  }

  /** The calls that return: empty text, or a configuration that moves forward. */
  predicate Returns(len: int, chunkSize: int, overlap: int) {
    len == 0 || Terminating(chunkSize, overlap)
  }

  /** One loop step: the start of the next window, from the start of the current one. */
  function NextStart(start: int, len: int, chunkSize: int, overlap: int): (r: int)
    ensures r >= 0
    ensures 0 <= start < len && Terminating(chunkSize, overlap) ==> r > start
    ensures 0 < len && overlap > 0 ==> r < len
    ensures 0 <= start && chunkSize <= overlap ==> r <= start
  {
    var end := Min(start + chunkSize, len);
    Max(0, end - overlap)
  }

  /** The chunk appended at window start `start`: `text[start:min(start + chunk_size, L)]`. */
  function Window(text: string, chunkSize: int, start: nat): string {
    Slice(text, start, Min(start + chunkSize, |text|))
  }

  /** The chunks the loop appends from window start `start` on. */
  function ChunksFrom(text: string, chunkSize: int, overlap: int, start: nat): seq<string>
    requires Returns(|text|, chunkSize, overlap)
    decreases |text| - start
  {
    if start >= |text| then []
    else [Window(text, chunkSize, start)] + ChunksFrom(text, chunkSize, overlap, NextStart(start, |text|, chunkSize, overlap))
  }

  /** What `chunk_text(text, chunk_size, overlap)` returns. */
  function Chunks(text: string, chunkSize: int, overlap: int): seq<string>
    requires Returns(|text|, chunkSize, overlap)
  {
    ChunksFrom(text, chunkSize, overlap, 0)
  }

  /** The window starts the loop visits from `start` on. */
  function WindowStartsFrom(len: nat, chunkSize: int, overlap: int, start: nat): seq<nat>
    requires Returns(len, chunkSize, overlap)
    decreases len - start
  {
    if start >= len then [] else [start] + WindowStartsFrom(len, chunkSize, overlap, NextStart(start, len, chunkSize, overlap))
  }

  method ChunkText(text: string, chunkSize: int, overlap: int) returns (chunks: seq<string>)
    requires Returns(|text|, chunkSize, overlap)
    ensures chunks == Chunks(text, chunkSize, overlap)
    ensures text == [] ==> chunks == []
  {
    chunks := [];
    var start := 0;
    var len := |text|;
    while start < len
      invariant 0 <= start
      invariant chunks + ChunksFrom(text, chunkSize, overlap, start) == Chunks(text, chunkSize, overlap)
      decreases len - start
    {
      var end := Min(start + chunkSize, len);
      AppendWindow(text, chunkSize, overlap, chunks, start);
      chunks := chunks + [Slice(text, start, end)];
      ghost var next := NextStart(start, len, chunkSize, overlap);
      start := end - overlap;
      if start < 0 {
        start := 0;
      }
      assert start == next;
    }
  }

  /** One pass of the loop: the window it appends is the next chunk of the result. */
  lemma AppendWindow(text: string, chunkSize: int, overlap: int, chunks: seq<string>, start: nat)
    requires Returns(|text|, chunkSize, overlap) && start < |text|
    requires chunks + ChunksFrom(text, chunkSize, overlap, start) == Chunks(text, chunkSize, overlap)
    ensures (chunks + [Window(text, chunkSize, start)]) + ChunksFrom(text, chunkSize, overlap, NextStart(start, |text|, chunkSize, overlap))
            == Chunks(text, chunkSize, overlap)
  {
    ChunksStep(text, chunkSize, overlap, start);
    MoveHead(chunks, Window(text, chunkSize, start), ChunksFrom(text, chunkSize, overlap, NextStart(start, |text|, chunkSize, overlap)),
             ChunksFrom(text, chunkSize, overlap, start), Chunks(text, chunkSize, overlap));
  }

  /**
   * Every chunk is the slice text[w : min(w + chunk_size, L)] at its window start w,
   * the window starts are below L, and before a window reaches the end the next
   * start is w + chunk_size - overlap.
   */
  lemma ChunksAreWindows(text: string, chunkSize: int, overlap: int, start: nat)
    requires Returns(|text|, chunkSize, overlap)
    ensures var c := ChunksFrom(text, chunkSize, overlap, start);
            var w := WindowStartsFrom(|text|, chunkSize, overlap, start);
            && |c| == |w|
            && (forall i :: 0 <= i < |w| ==> start <= w[i] < |text| && c[i] == Window(text, chunkSize, w[i]))
            && (forall i :: 0 <= i < |w| - 1 ==> w[i + 1] == NextStart(w[i], |text|, chunkSize, overlap))
            && (forall i :: 0 <= i < |w| - 1 && w[i] + chunkSize < |text| ==> w[i + 1] == w[i] + chunkSize - overlap)
  {
    WindowSlices(text, chunkSize, overlap, start);
    WindowSteps(|text|, chunkSize, overlap, start);
  }

  lemma ChunksStep(text: string, chunkSize: int, overlap: int, start: nat)
    requires Terminating(chunkSize, overlap) && start < |text|
    ensures ChunksFrom(text, chunkSize, overlap, start)
            == [Window(text, chunkSize, start)] + ChunksFrom(text, chunkSize, overlap, NextStart(start, |text|, chunkSize, overlap))
  {
  }

  lemma StartsStep(len: nat, chunkSize: int, overlap: int, start: nat)
    requires Terminating(chunkSize, overlap) && start < len
    ensures WindowStartsFrom(len, chunkSize, overlap, start)
            == [start] + WindowStartsFrom(len, chunkSize, overlap, NextStart(start, len, chunkSize, overlap))
  {
  }

  /** Chunk i is the slice at window start i, and every window start lies in [start, L). */
  lemma {:induction false} WindowSlices(text: string, chunkSize: int, overlap: int, start: nat)
    requires Returns(|text|, chunkSize, overlap)
    ensures var c := ChunksFrom(text, chunkSize, overlap, start);
            var w := WindowStartsFrom(|text|, chunkSize, overlap, start);
            && |c| == |w|
            && (forall i :: 0 <= i < |w| ==> start <= w[i] < |text| && c[i] == Window(text, chunkSize, w[i]))
    decreases |text| - start
  {
    if start < |text| {
      var next := NextStart(start, |text|, chunkSize, overlap);
      WindowSlices(text, chunkSize, overlap, next);
      ChunksStep(text, chunkSize, overlap, start);
      StartsStep(|text|, chunkSize, overlap, start);
      var c' := ChunksFrom(text, chunkSize, overlap, next);
      var w' := WindowStartsFrom(|text|, chunkSize, overlap, next);
      var c := [Window(text, chunkSize, start)] + c';
      var w := [start] + w';
      forall i | 0 <= i < |w| ensures start <= w[i] < |text| && c[i] == Window(text, chunkSize, w[i]) {
        if i > 0 {
          assert w[i] == w'[i - 1] && c[i] == c'[i - 1];
        }
      }
    }
  }

  /** Each window start follows from the one before it by one loop step. */
  lemma {:induction false} WindowSteps(len: nat, chunkSize: int, overlap: int, start: nat)
    requires Returns(len, chunkSize, overlap)
    ensures var w := WindowStartsFrom(len, chunkSize, overlap, start);
            forall i :: 0 <= i < |w| - 1 ==> w[i + 1] == NextStart(w[i], len, chunkSize, overlap)
    decreases len - start
  {
    if start < len {
      var next := NextStart(start, len, chunkSize, overlap);
      WindowSteps(len, chunkSize, overlap, next);
      StartsStep(len, chunkSize, overlap, start);
      var w' := WindowStartsFrom(len, chunkSize, overlap, next);
      var w := [start] + w';
      forall i | 0 <= i < |w| - 1 ensures w[i + 1] == NextStart(w[i], len, chunkSize, overlap) {
        if i == 0 {
          if w' != [] {
            StartsStep(len, chunkSize, overlap, next);
          }
        } else {
          assert w[i] == w'[i - 1] && w[i + 1] == w'[i];
        }
      }
    }
  }

  /** No chunk is longer than the text, nor than a positive chunk_size. */
  lemma ChunkLengthBound(text: string, chunkSize: int, overlap: int)
    requires Returns(|text|, chunkSize, overlap)
    ensures forall c :: c in Chunks(text, chunkSize, overlap) ==> |c| <= |text| && (chunkSize > 0 ==> |c| <= chunkSize)
  {
    ChunksAreWindows(text, chunkSize, overlap, 0);
    var c := Chunks(text, chunkSize, overlap);
    forall x | x in c ensures |x| <= |text| && (chunkSize > 0 ==> |x| <= chunkSize) {
      var i :| 0 <= i < |c| && c[i] == x;
    }
  }

  function Concat(ss: seq<string>): string {
    if ss == [] then [] else ss[0] + Concat(ss[1..])
  }

  /** With no overlap the chunks tile the text from `start` exactly. */
  lemma {:induction false} NoOverlapTiles(text: string, chunkSize: int, start: nat)
    requires chunkSize > 0 && start <= |text|
    ensures Concat(ChunksFrom(text, chunkSize, 0, start)) == text[start..]
    decreases |text| - start
  {
    if start < |text| {
      var end := Min(start + chunkSize, |text|);
      NoOverlapTiles(text, chunkSize, end);
      assert text[start..] == text[start..end] + text[end..];
    }
  }

  /** With no overlap every chunk but the last has exactly chunk_size characters. */
  lemma {:induction false} NoOverlapFullChunks(text: string, chunkSize: int, start: nat)
    requires chunkSize > 0
    ensures var c := ChunksFrom(text, chunkSize, 0, start);
            forall i :: 0 <= i < |c| - 1 ==> |c[i]| == chunkSize
    decreases |text| - start
  {
    if start < |text| {
      var next := NextStart(start, |text|, chunkSize, 0);
      NoOverlapFullChunks(text, chunkSize, next);
      if start + chunkSize >= |text| {
        assert ChunksFrom(text, chunkSize, 0, next) == [];
      }
    }
  }

  /** chunk_text with overlap 0 splits the text into consecutive pieces of chunk_size. */
  lemma NoOverlapRoundTrip(text: string, chunkSize: int)
    requires chunkSize > 0
    ensures Concat(Chunks(text, chunkSize, 0)) == text
    ensures var c := Chunks(text, chunkSize, 0);
            forall i :: 0 <= i < |c| - 1 ==> |c[i]| == chunkSize
  {
    NoOverlapTiles(text, chunkSize, 0);
    NoOverlapFullChunks(text, chunkSize, 0);
  }

  /** The value of `start` after n passes through the loop body, had the guard held each time. */
  function StartAfter(n: nat, len: int, chunkSize: int, overlap: int): int {
    if n == 0 then 0 else NextStart(StartAfter(n - 1, len, chunkSize, overlap), len, chunkSize, overlap)
  }

  /**
   * On non-empty text the guard `start < L` holds after every number of passes
   * when overlap > 0, or when chunk_size <= overlap: the loop never exits.
   */
  lemma {:induction false} NeverExits(len: int, chunkSize: int, overlap: int, n: nat)
    requires len > 0
    requires overlap > 0 || overlap >= chunkSize
    ensures 0 <= StartAfter(n, len, chunkSize, overlap) < len
  {
    if n > 0 {
      NeverExits(len, chunkSize, overlap, n - 1);
    }
  }

  /** When the loop moves forward, after n passes the start has reached min(n, L). */
  lemma {:induction false} ExitsWithin(len: nat, chunkSize: int, overlap: int, n: nat)
    requires Terminating(chunkSize, overlap)
    ensures StartAfter(n, len, chunkSize, overlap) >= Min(n, len)
  {
    if n > 0 {
      ExitsWithin(len, chunkSize, overlap, n - 1);
    }
  }

  /**
   * On non-empty text the guard `start < L` fails within L passes exactly when
   * overlap <= 0 and overlap < chunk_size; otherwise it holds forever.
   */
  lemma ReturnsExactly(len: int, chunkSize: int, overlap: int)
    requires len > 0
    ensures Terminating(chunkSize, overlap) <==> StartAfter(len, len, chunkSize, overlap) >= len
    ensures !Terminating(chunkSize, overlap) ==> forall n: nat :: StartAfter(n, len, chunkSize, overlap) < len
  {
    if Terminating(chunkSize, overlap) {
      ExitsWithin(len, chunkSize, overlap, len);
    } else {
      NeverExits(len, chunkSize, overlap, len);
      forall n: nat ensures StartAfter(n, len, chunkSize, overlap) < len {
        NeverExits(len, chunkSize, overlap, n);
      }
    }
  }

  /**
   * A non-positive chunk_size with a smaller overlap still moves forward:
   * `chunk_text("ab", 0, -1)` returns two empty slices.
   */
  lemma ZeroSizeExample()
    ensures Returns(2, 0, -1)
    ensures Chunks("ab", 0, -1) == ["", ""]
  {
    var t := "ab";
    var e: string := [];
    assert ChunksFrom(t, 0, -1, 2) == [];
    ChunksStep(t, 0, -1, 1);
    var c1 := Slice(t, 1, Min(1, 2));
    assert c1 == e;
    assert ChunksFrom(t, 0, -1, 1) == [c1] + ChunksFrom(t, 0, -1, 2);
    ChunksStep(t, 0, -1, 0);
    var c0 := Slice(t, 0, Min(0, 2));
    assert c0 == e;
    assert ChunksFrom(t, 0, -1, 0) == [c0] + ChunksFrom(t, 0, -1, 1);
  }

  /**
   * When 0 < overlap <= chunk_size and a window ends at L, the next start is
   * max(L - overlap, 0), whose window ends at L again: that last window repeats forever.
   */
  lemma FinalWindowIsFixpoint(len: int, chunkSize: int, overlap: int, start: int)
    requires 0 <= start < len && start + chunkSize >= len
    requires 0 < overlap <= chunkSize
    ensures var s := NextStart(start, len, chunkSize, overlap);
            && s == Max(len - overlap, 0)
            && s < len
            && s + chunkSize >= len
            && NextStart(s, len, chunkSize, overlap) == s
  {
  }

  /** A call with both arguments None uses 1000/200 and never returns on non-empty text. */
  lemma DefaultCallNeverReturns(text: string, n: nat)
    requires |text| > 0
    ensures var (cs, ov) := ResolveSettings(None, None);
            0 <= StartAfter(n, |text|, cs, ov) < |text|
  {
    NeverExits(|text|, CHUNK_SIZE, CHUNK_OVERLAP, n);
  }

  // ---------------------------------------------------------------------------
  // The loop as evidently intended: stop after the window that reaches the end.

  /** The chunks when the loop leaves as soon as a window ends at L. */
  function StoppingChunksFrom(text: string, chunkSize: int, overlap: int, start: nat): (r: seq<string>)
    requires chunkSize > overlap >= 0
    decreases |text| - start
  {
    if start >= |text| then []
    else
      var end := Min(start + chunkSize, |text|);
      [text[start..end]] + (if end == |text| then [] else StoppingChunksFrom(text, chunkSize, overlap, end - overlap))
  }

  function StoppingChunks(text: string, chunkSize: int, overlap: int): seq<string>
    requires chunkSize > overlap >= 0
  {
    StoppingChunksFrom(text, chunkSize, overlap, 0)
  }

  /**
   * chunk_text with `if end == L: break` after the append; it returns for every
   * chunk_size > overlap >= 0, and its chunks stitch back into the text.
   */
  method ChunkTextStopping(text: string, chunkSize: int, overlap: int) returns (chunks: seq<string>)
    requires chunkSize > overlap >= 0
    ensures chunks == StoppingChunks(text, chunkSize, overlap)
    ensures Stitch(chunks, overlap) == text
  {
    chunks := [];
    var start := 0;
    var len := |text|;
    while start < len
      invariant 0 <= start
      invariant chunks + StoppingChunksFrom(text, chunkSize, overlap, start) == StoppingChunks(text, chunkSize, overlap)
      decreases len - start
    {
      var end := Min(start + chunkSize, len);
      AdvanceChunks(text, chunkSize, overlap, chunks, start);
      chunks := chunks + [text[start..end]];
      if end == len {
        break;
      }
      start := end - overlap;
    }
    StoppingRoundTrip(text, chunkSize, overlap);
  }

  /** One pass of the stopping loop: the chunk it appends is the next one of the result. */
  lemma AdvanceChunks(text: string, chunkSize: int, overlap: int, chunks: seq<string>, start: nat)
    requires chunkSize > overlap >= 0 && start < |text|
    requires chunks + StoppingChunksFrom(text, chunkSize, overlap, start) == StoppingChunks(text, chunkSize, overlap)
    ensures var end := Min(start + chunkSize, |text|);
            var grown := chunks + [text[start..end]];
            && (end == |text| ==> grown == StoppingChunks(text, chunkSize, overlap))
            && (end < |text| ==> grown + StoppingChunksFrom(text, chunkSize, overlap, end - overlap) == StoppingChunks(text, chunkSize, overlap))
  {
    var end := Min(start + chunkSize, |text|);
    var rest := if end == |text| then [] else StoppingChunksFrom(text, chunkSize, overlap, end - overlap);
    StoppingStep(text, chunkSize, overlap, start);
    MoveHead(chunks, text[start..end], rest, StoppingChunksFrom(text, chunkSize, overlap, start), StoppingChunks(text, chunkSize, overlap));
  }

  /** Moving the head of the remaining part onto the done part keeps their concatenation. */
  lemma MoveHead<T>(done: seq<T>, x: T, rest: seq<T>, todo: seq<T>, whole: seq<T>)
    requires done + todo == whole && todo == [x] + rest
    ensures (done + [x]) + rest == whole
    ensures rest == [] ==> done + [x] == whole
  {
    assert done + ([x] + rest) == (done + [x]) + rest;
  }

  lemma StoppingStep(text: string, chunkSize: int, overlap: int, start: nat)
    requires chunkSize > overlap >= 0 && start < |text|
    ensures var end := Min(start + chunkSize, |text|);
            StoppingChunksFrom(text, chunkSize, overlap, start)
            == [text[start..end]] + (if end == |text| then [] else StoppingChunksFrom(text, chunkSize, overlap, end - overlap))
  {
  }

  /** Every stopping chunk is non-empty and at most chunk_size long. */
  lemma {:induction false} StoppingChunkSizes(text: string, chunkSize: int, overlap: int, start: nat)
    requires chunkSize > overlap >= 0
    ensures var r := StoppingChunksFrom(text, chunkSize, overlap, start);
            forall i :: 0 <= i < |r| ==> 0 < |r[i]| <= chunkSize
    decreases |text| - start
  {
    if start < |text| {
      var end := Min(start + chunkSize, |text|);
      var rest := if end == |text| then [] else StoppingChunksFrom(text, chunkSize, overlap, end - overlap);
      StoppingStep(text, chunkSize, overlap, start);
      if end < |text| {
        StoppingChunkSizes(text, chunkSize, overlap, end - overlap);
      }
      var r := StoppingChunksFrom(text, chunkSize, overlap, start);
      forall i | 0 <= i < |r| ensures 0 < |r[i]| <= chunkSize {
        if i > 0 {
          assert r[i] == rest[i - 1];
        }
      }
    }
  }

  /** A chunk without its first `overlap` characters, which repeat the previous chunk's last ones. */
  function DropOverlap(c: string, overlap: nat): string {
    if |c| >= overlap then c[overlap..] else []
  }

  function JoinDropped(cs: seq<string>, overlap: nat): string {
    if cs == [] then [] else DropOverlap(cs[0], overlap) + JoinDropped(cs[1..], overlap)
  }

  /** The first chunk whole, then every later chunk without the part it shares with its predecessor. */
  function Stitch(cs: seq<string>, overlap: nat): string {
    if cs == [] then [] else cs[0] + JoinDropped(cs[1..], overlap)
  }

  /** Dropping the overlap from one more chunk appends that chunk's new part. */
  lemma {:induction false} JoinDroppedSnoc(cs: seq<string>, c: string, overlap: nat)
    ensures JoinDropped(cs + [c], overlap) == JoinDropped(cs, overlap) + DropOverlap(c, overlap)
  {
    if cs != [] {
      assert (cs + [c])[1..] == cs[1..] + [c];
      JoinDroppedSnoc(cs[1..], c, overlap);
    } else {
      assert JoinDropped([c], overlap) == DropOverlap(c, overlap) + JoinDropped([], overlap);
    }
  }

  /** Stitching one more chunk onto a non-empty list appends that chunk's new part. */
  lemma StitchSnoc(cs: seq<string>, c: string, overlap: nat)
    requires cs != []
    ensures Stitch(cs + [c], overlap) == Stitch(cs, overlap) + DropOverlap(c, overlap)
  {
    assert (cs + [c])[1..] == cs[1..] + [c];
    JoinDroppedSnoc(cs[1..], c, overlap);
  }

  /** The next window extends the stitched prefix of the text to the window's end. */
  lemma StitchNext(text: string, chunks: seq<string>, overlap: nat, start: nat, end: nat)
    requires start <= end <= |text|
    requires chunks == [] ==> start == 0
    requires chunks != [] ==> start + overlap <= end && Stitch(chunks, overlap) == text[..start + overlap]
    ensures Stitch(chunks + [text[start..end]], overlap) == text[..end]
  {
    var c := text[start..end];
    if chunks == [] {
      assert [c] + [] == [c];
      assert Stitch([c], overlap) == c + JoinDropped([], overlap);
      assert c + [] == c;
    } else {
      StitchSnoc(chunks, c, overlap);
      assert DropOverlap(c, overlap) == text[start + overlap..end];
      PrefixGlue(text, start + overlap, end);
    }
  }

  /** A prefix of a text followed by the slice after it is the longer prefix. */
  lemma PrefixGlue(t: string, a: nat, b: nat)
    requires a <= b <= |t|
    ensures t[..a] + t[a..b] == t[..b]
  {
  }

  /** The stopping chunks stitch back into the text. */
  lemma StoppingRoundTrip(text: string, chunkSize: int, overlap: int)
    requires chunkSize > overlap >= 0
    ensures Stitch(StoppingChunks(text, chunkSize, overlap), overlap) == text
  {
    if text != [] {
      StitchRest(text, chunkSize, overlap, 0, []);
      assert [] + StoppingChunksFrom(text, chunkSize, overlap, 0) == StoppingChunks(text, chunkSize, overlap);
    }
  }

  /**
   * Once the chunks so far stitch to the text up to the current window start plus
   * the overlap (or none are done and the window starts at 0), adding the remaining stopping chunks stitches the whole text.
   */
  lemma {:induction false} StitchRest(text: string, chunkSize: int, overlap: int, start: nat, done: seq<string>)
    requires chunkSize > overlap >= 0 && start < |text|
    requires done == [] ==> start == 0
    requires done != [] ==> start + overlap <= |text| && Stitch(done, overlap) == text[..start + overlap]
    ensures Stitch(done + StoppingChunksFrom(text, chunkSize, overlap, start), overlap) == text
    decreases |text| - start
  {
    var end := Min(start + chunkSize, |text|);
    var grown := done + [text[start..end]];
    var rest := if end == |text| then [] else StoppingChunksFrom(text, chunkSize, overlap, end - overlap);
    StoppingStep(text, chunkSize, overlap, start);
    MoveHead(done, text[start..end], rest, StoppingChunksFrom(text, chunkSize, overlap, start),
             done + StoppingChunksFrom(text, chunkSize, overlap, start));
    StitchNext(text, done, overlap, start, end);
    if end == |text| {
      assert text[..end] == text;
    } else {
      assert end - overlap + overlap == end;
      StitchRest(text, chunkSize, overlap, end - overlap, grown);
    }
  }

  /**
   * The default configuration 1000/200 meets the stopping loop's precondition, so
   * with the stop the default call returns, in chunks of 1 to 1000 characters.
   */
  lemma DefaultsStop(text: string)
    ensures var (cs, ov) := ResolveSettings(None, None);
            && cs > ov >= 0
            && var r := StoppingChunks(text, cs, ov);
               forall i :: 0 <= i < |r| ==> 0 < |r[i]| <= cs
  {
    var (cs, ov) := ResolveSettings(None, None);
    assert cs == CHUNK_SIZE && ov == CHUNK_OVERLAP;
    StoppingChunkSizes(text, cs, ov, 0);
    var r := StoppingChunks(text, cs, ov);
    assert r == StoppingChunksFrom(text, cs, ov, 0);
    assert forall i :: 0 <= i < |r| ==> 0 < |r[i]| <= cs;
  }
}
