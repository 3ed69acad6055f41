/**
 * The character-window chunker of app/chunker.py.
 *
 * `chunk_text` strips the text and cuts windows `t[start:end]` with
 * `end = min(start + chunk_size, len(t))`; the next window starts at
 * `end - overlap`, clamped to 0, and the loop ends only when that start
 * reaches `len(t)`. The loop is modelled as a step function on its state
 * (`Run`), and `ChunkText` runs it as a method. When `overlap > 0` the window
 * that reaches the end of the text is cut again and again and the source
 * never returns: `ChunkText` then stops at the first pass whose state repeats
 * and reports `Hangs`. `ChunkTextChecked` is the chunker the source evidently
 * intends: it stops after the window that reaches the end and rejects an
 * overlap that is negative or not below the chunk size.
 */
module Chunker {
  import opened Wrappers
  import opened Text

  /** `min(start + chunk_size, len(t))`: where the window that begins at `start` ends. */
  function End(n: nat, chunkSize: int, start: nat): (e: nat)
    requires chunkSize > 0
    ensures start < n ==> start < e <= n && e - start <= chunkSize
    ensures e == n <==> start + chunkSize >= n
    ensures e != n ==> e == start + chunkSize
  {
    if start + chunkSize < n then start + chunkSize else n
  }

  /** `end - overlap`, clamped to 0: where the window after the one at `start` begins. */
  function Next(n: nat, chunkSize: int, overlap: int, start: nat): (s: nat)
    requires chunkSize > 0
    ensures s > 0 ==> End(n, chunkSize, start) - s == overlap
    ensures s == 0 ==> End(n, chunkSize, start) <= overlap
    ensures overlap >= chunkSize ==> s <= start
    ensures overlap <= 0 && start < n ==> s > start
    ensures overlap > 0 && n > 0 ==> s < n
  {
    var s := End(n, chunkSize, start) - overlap;
    if s < 0 then 0 else s
  }

  /** Moving a window right never moves the window after it left. */
  lemma NextMonotone(n: nat, chunkSize: int, overlap: int, a: nat, b: nat)
    requires chunkSize > 0 && a <= b
    ensures Next(n, chunkSize, overlap, a) <= Next(n, chunkSize, overlap, b)
  {
  }

  /** The variables of the `while` loop: `start` and the list `chunks`. */
  datatype LoopState = LoopState(start: nat, chunks: seq<string>)

  /** One pass of the loop body on the stripped text `t`; the loop guard admits it. */
  function Pass(t: string, chunkSize: int, overlap: int, s: LoopState): LoopState
    requires chunkSize > 0 && s.start < |t|
  {
    var end := End(|t|, chunkSize, s.start);
    LoopState(Next(|t|, chunkSize, overlap, s.start), s.chunks + [t[s.start..end]])
  }

  /**
   * The loop state after `k` passes. Once `start` reaches `len(t)` the loop
   * has exited (the `break` and the guard test the same condition) and the
   * state stays as it is.
   */
  function Run(t: string, chunkSize: int, overlap: int, k: nat): LoopState
    requires chunkSize > 0
  {
    if k == 0 then LoopState(0, [])
    else
      var s := Run(t, chunkSize, overlap, k - 1);
      if s.start < |t| then Pass(t, chunkSize, overlap, s) else s
  }

  /** The loop has exited within `k` passes. */
  predicate Halted(t: string, chunkSize: int, overlap: int, k: nat)
    requires chunkSize > 0
  {
    Run(t, chunkSize, overlap, k).start >= |t|
  }

  /**
   * Every chunk is a window of the stripped text: chunk `i` is cut on pass `i`
   * at that pass's start (0 on the first pass), is non-empty and is at most
   * `chunkSize` long. While the loop runs, pass `k` has produced `k` chunks.
   */
  lemma {:induction false} RunShape(t: string, chunkSize: int, overlap: int, k: nat)
    requires chunkSize > 0
    ensures |Run(t, chunkSize, overlap, k).chunks| <= k
    ensures Run(t, chunkSize, overlap, k).start < |t| ==> |Run(t, chunkSize, overlap, k).chunks| == k
    ensures forall i :: 0 <= i < |Run(t, chunkSize, overlap, k).chunks| ==>
      Run(t, chunkSize, overlap, i).start < |t| &&
      Run(t, chunkSize, overlap, k).chunks[i] ==
        t[Run(t, chunkSize, overlap, i).start..End(|t|, chunkSize, Run(t, chunkSize, overlap, i).start)] &&
      0 < |Run(t, chunkSize, overlap, k).chunks[i]| <= chunkSize
  {
    if k > 0 {
      RunShape(t, chunkSize, overlap, k - 1);
    }
  }

  /** While the loop runs, pass `k` has produced `k` chunks. */
  lemma {:induction false} RunLength(t: string, chunkSize: int, overlap: int, k: nat)
    requires chunkSize > 0 && Run(t, chunkSize, overlap, k).start < |t|
    ensures |Run(t, chunkSize, overlap, k).chunks| == k
  {
    if k > 0 {
      RunLength(t, chunkSize, overlap, k - 1);
    }
  }

  /** `start` never decreases from one pass to the next. */
  lemma {:induction false} StartsNonDecreasing(t: string, chunkSize: int, overlap: int, k: nat)
    requires chunkSize > 0
    ensures Run(t, chunkSize, overlap, k).start <= Run(t, chunkSize, overlap, k + 1).start
  {
    if k > 0 {
      StartsNonDecreasing(t, chunkSize, overlap, k - 1);
      var prev := Run(t, chunkSize, overlap, k - 1);
      if prev.start < |t| {
        NextMonotone(|t|, chunkSize, overlap, prev.start, Run(t, chunkSize, overlap, k).start);
      }
    }
  }

  /** With `overlap >= chunkSize` every window starts at 0: `start` never moves. */
  lemma {:induction false} StuckAtZero(t: string, chunkSize: int, overlap: int, k: nat)
    requires chunkSize > 0 && overlap >= chunkSize
    ensures Run(t, chunkSize, overlap, k).start == 0
  {
    if k > 0 {
      StuckAtZero(t, chunkSize, overlap, k - 1);
    }
  }

  /** With `overlap <= 0` the loop exits within `len(t)` passes. */
  lemma {:induction false} NoOverlapHalts(t: string, chunkSize: int, overlap: int, k: nat)
    requires chunkSize > 0 && overlap <= 0
    ensures Run(t, chunkSize, overlap, k).start >= if k < |t| then k else |t|
  {
    if k > 0 {
      NoOverlapHalts(t, chunkSize, overlap, k - 1);
    }
  }

  /** With `overlap > 0` and non-blank text the loop never exits. */
  lemma {:induction false} OverlapNeverHalts(t: string, chunkSize: int, overlap: int, k: nat)
    requires chunkSize > 0 && overlap > 0 && t != []
    ensures Run(t, chunkSize, overlap, k).start < |t|
  {
    if k > 0 {
      OverlapNeverHalts(t, chunkSize, overlap, k - 1);
    }
  }

  /**
   * With `overlap > 0`, once a window ends at `len(t)` the next start is
   * `max(len(t) - overlap, 0) < len(t)`, and the pass after that starts there
   * again and cuts the same window `t[start:]`.
   */
  lemma LastWindowRepeats(t: string, chunkSize: int, overlap: int, k: nat)
    requires chunkSize > 0 && overlap > 0
    requires Run(t, chunkSize, overlap, k).start < |t|
    requires End(|t|, chunkSize, Run(t, chunkSize, overlap, k).start) == |t|
    ensures Run(t, chunkSize, overlap, k + 1).start == (if |t| > overlap then |t| - overlap else 0)
    ensures Run(t, chunkSize, overlap, k + 2).start == Run(t, chunkSize, overlap, k + 1).start < |t|
    ensures Run(t, chunkSize, overlap, k + 2).chunks ==
      Run(t, chunkSize, overlap, k + 1).chunks + [t[Run(t, chunkSize, overlap, k + 1).start..]]
  {
    StartsNonDecreasing(t, chunkSize, overlap, k);
    var s := Run(t, chunkSize, overlap, k + 1).start;
    assert End(|t|, chunkSize, s) == |t|;
    assert t[s..End(|t|, chunkSize, s)] == t[s..];
  }

  /** Once a pass leaves `start` where it was, every later pass appends that same window. */
  lemma {:induction false} RepeatsForever(t: string, chunkSize: int, overlap: int, k: nat, j: nat)
    requires chunkSize > 0 && k <= j
    requires Run(t, chunkSize, overlap, k + 1).start == Run(t, chunkSize, overlap, k).start < |t|
    ensures Run(t, chunkSize, overlap, j).start == Run(t, chunkSize, overlap, k).start
    ensures Run(t, chunkSize, overlap, j + 1).chunks == Run(t, chunkSize, overlap, j).chunks +
      [t[Run(t, chunkSize, overlap, k).start..End(|t|, chunkSize, Run(t, chunkSize, overlap, k).start)]]
  {
    if j > k {
      RepeatsForever(t, chunkSize, overlap, k, j - 1);
    }
  }

  /**
   * Consecutive windows whose second one starts after 0 share exactly
   * `overlap` characters: the last `overlap` characters of chunk `i` are the
   * first `overlap` characters of chunk `i + 1`.
   */
  lemma ConsecutiveWindowsOverlap(t: string, chunkSize: int, overlap: int, i: nat)
    requires chunkSize > 0 && overlap >= 0
    requires 0 < Run(t, chunkSize, overlap, i + 1).start < |t|
    ensures End(|t|, chunkSize, Run(t, chunkSize, overlap, i).start) - Run(t, chunkSize, overlap, i + 1).start == overlap
    ensures var c := Run(t, chunkSize, overlap, i + 2).chunks;
      |c| == i + 2 && overlap <= |c[i]| && overlap <= |c[i + 1]| &&
      c[i][|c[i]| - overlap..] == c[i + 1][..overlap]
  {
    if overlap >= chunkSize {
      StuckAtZero(t, chunkSize, overlap, i + 1);
    }
    StartsNonDecreasing(t, chunkSize, overlap, i);
    RunLength(t, chunkSize, overlap, i);
    LoopStep(t, chunkSize, overlap, i);
    LoopStep(t, chunkSize, overlap, i + 1);
    AdjacentWindows(t, chunkSize, overlap, Run(t, chunkSize, overlap, i).start, Run(t, chunkSize, overlap, i + 1).start,
                    Run(t, chunkSize, overlap, i).chunks, Run(t, chunkSize, overlap, i + 2).chunks);
  }

  /** Two windows cut one after the other, the second starting `overlap` before the first ends. */
  lemma AdjacentWindows(t: string, chunkSize: int, overlap: int, s: nat, s2: nat, prefix: seq<string>, c: seq<string>)
    requires chunkSize > 0 && 0 <= overlap && s <= s2 < |t|
    requires End(|t|, chunkSize, s) - s2 == overlap
    requires c == prefix + [t[s..End(|t|, chunkSize, s)]] + [t[s2..End(|t|, chunkSize, s2)]]
    ensures var i := |prefix|;
      |c| == i + 2 && overlap <= |c[i]| && overlap <= |c[i + 1]| &&
      c[i][|c[i]| - overlap..] == c[i + 1][..overlap]
  {
    var e, e2 := End(|t|, chunkSize, s), End(|t|, chunkSize, s2);
    assert c[|prefix|] == t[s..e] && c[|prefix| + 1] == t[s2..e2];
    WindowsShare(t, s, e, s2, e2);
  }

  /** Two windows `t[s:e]` and `t[s2:e2]` with `s <= s2 <= e <= e2` share the characters `t[s2:e]`. */
  lemma WindowsShare(t: string, s: nat, e: nat, s2: nat, e2: nat)
    requires s <= s2 <= e <= e2 <= |t|
    ensures t[s..e][(e - s) - (e - s2)..] == t[s2..e2][..e - s2]
  {
    assert t[s..e][(e - s) - (e - s2)..] == t[s2..e];
  }

  /** Two adjacent slices of a text join into one. */
  lemma SliceSplit(t: string, a: nat, b: nat)
    requires a <= b <= |t|
    ensures t[..a] + t[a..b] == t[..b]
  {
  }

  /** One pass of the loop from the state after `k` passes, written as the loop body computes it. */
  lemma LoopStep(t: string, chunkSize: int, overlap: int, k: nat)
    requires chunkSize > 0 && Run(t, chunkSize, overlap, k).start < |t|
    ensures var s := Run(t, chunkSize, overlap, k);
      var end := End(|t|, chunkSize, s.start);
      Run(t, chunkSize, overlap, k + 1) ==
        LoopState(if end - overlap < 0 then 0 else end - overlap, s.chunks + [t[s.start..end]])
  {
  }

  /**
   * With `overlap == 0` the chunks are consecutive pieces of the text: their
   * concatenation is the part already cut.
   */
  lemma {:induction false} NoOverlapConcat(t: string, chunkSize: int, k: nat)
    requires chunkSize > 0
    ensures Run(t, chunkSize, 0, k).start <= |t|
    ensures Concat(Run(t, chunkSize, 0, k).chunks) == t[..Run(t, chunkSize, 0, k).start]
  {
    if k > 0 {
      NoOverlapConcat(t, chunkSize, k - 1);
      var s := Run(t, chunkSize, 0, k - 1);
      if s.start < |t| {
        LoopStep(t, chunkSize, 0, k - 1);
        var e := End(|t|, chunkSize, s.start);
        var c := s.chunks + [t[s.start..e]];
        assert Run(t, chunkSize, 0, k) == LoopState(e, c);
        assert c[..|c| - 1] == s.chunks;
        SliceSplit(t, s.start, e);
      }
    }
  }

  /** With `overlap == 0` every chunk is `chunkSize` long, except a last one that reaches the end of the text. */
  lemma {:induction false} NoOverlapFull(t: string, chunkSize: int, k: nat)
    requires chunkSize > 0
    ensures var r := Run(t, chunkSize, 0, k);
      forall i :: 0 <= i < |r.chunks| ==> |r.chunks[i]| == chunkSize || (i == |r.chunks| - 1 && r.start == |t|)
  {
    if k > 0 {
      NoOverlapFull(t, chunkSize, k - 1);
      var s := Run(t, chunkSize, 0, k - 1);
      if s.start < |t| {
        LoopStep(t, chunkSize, 0, k - 1);
        var e := End(|t|, chunkSize, s.start);
        var c := s.chunks + [t[s.start..e]];
        assert Run(t, chunkSize, 0, k) == LoopState(e, c);
        forall i | 0 <= i < |c| ensures |c[i]| == chunkSize || (i == |c| - 1 && e == |t|) {
          if i < |s.chunks| {
            assert c[i] == s.chunks[i];
          } else {
            assert |c[i]| == e - s.start;
          }
        }
      }
    }
  }

  /** A finished run without overlap spells the text, and all its chunks but the last are full. */
  lemma NoOverlapResult(t: string, chunkSize: int, k: nat)
    requires chunkSize > 0 && Halted(t, chunkSize, 0, k)
    ensures Concat(Run(t, chunkSize, 0, k).chunks) == t
    ensures var c := Run(t, chunkSize, 0, k).chunks;
      forall i :: 0 <= i < |c| - 1 ==> |c[i]| == chunkSize
  {
    NoOverlapConcat(t, chunkSize, k);
    NoOverlapFull(t, chunkSize, k);
    assert t[..|t|] == t;
  }

  /**
   * One pass in the loop's own terms: the state it leads to, and that
   * `start` never moves back and moves forward without overlap.
   */
  lemma PassFacts(t: string, chunkSize: int, overlap: int, k: nat)
    requires chunkSize > 0 && Run(t, chunkSize, overlap, k).start < |t|
    ensures var s := Run(t, chunkSize, overlap, k);
      var end := End(|t|, chunkSize, s.start);
      var next := if end - overlap < 0 then 0 else end - overlap;
      Run(t, chunkSize, overlap, k + 1) == LoopState(next, s.chunks + [t[s.start..end]]) &&
      s.start <= next && (overlap <= 0 ==> s.start < next) && (overlap > 0 ==> next < |t|)
  {
    LoopStep(t, chunkSize, overlap, k);
    StartsNonDecreasing(t, chunkSize, overlap, k);
  }

  /** With overlap, no number of passes exits the loop. */
  lemma NeverHalts(t: string, chunkSize: int, overlap: int)
    requires chunkSize > 0 && overlap > 0 && t != []
    ensures forall k: nat :: Run(t, chunkSize, overlap, k).start < |t|
  {
    forall k: nat ensures Run(t, chunkSize, overlap, k).start < |t| {
      OverlapNeverHalts(t, chunkSize, overlap, k);
    }
  }

  /** What calling `chunk_text` does: it returns `chunks`, or it never returns. */
  datatype Outcome = Returns(chunks: seq<string>) | Hangs(pass: nat)

  /**
   * The window loop of `chunk_text` on the stripped, non-empty text `t`.
   * Where the source would go on forever, the method stops at the first pass
   * that leaves `start` unchanged and returns `Hangs` with that pass's number.
   */
  method CutWindows(t: string, chunkSize: int, overlap: int) returns (r: Outcome)
    requires chunkSize > 0 && t != []
    ensures r.Returns? <==> overlap <= 0
    ensures r.Returns? ==>
      Halted(t, chunkSize, overlap, |r.chunks|) && r.chunks == Run(t, chunkSize, overlap, |r.chunks|).chunks
    ensures r.Hangs? ==> Run(t, chunkSize, overlap, r.pass + 1).start == Run(t, chunkSize, overlap, r.pass).start
    ensures r.Hangs? ==> forall k: nat :: Run(t, chunkSize, overlap, k).start < |t|
  {
    var chunks: seq<string> := [];
    var start: nat := 0;
    while start < |t|
      invariant start == Run(t, chunkSize, overlap, |chunks|).start
      invariant chunks == Run(t, chunkSize, overlap, |chunks|).chunks
      invariant overlap > 0 ==> start < |t|
      decreases |t| - start
    {
      PassFacts(t, chunkSize, overlap, |chunks|);
      var end := End(|t|, chunkSize, start);
      chunks := chunks + [t[start..end]];
      var next := end - overlap;
      if next < 0 {
        next := 0;
      }
      if next >= |t| {
        start := next;
        break;
      }
      if next <= start {
        // the next pass would start where this one did: the source loops forever
        NeverHalts(t, chunkSize, overlap);
        return Hangs(|chunks| - 1);
      }
      start := next;
    }
    return Returns(chunks);
  }

  /**
   * `chunk_text(text, chunk_size, overlap)`: blank text gives `[]`, any
   * other text runs the window loop on the stripped text.
   */
  method ChunkText(text: string, chunkSize: int, overlap: int) returns (r: Outcome)
    requires chunkSize > 0
    ensures r.Returns? <==> (Strip(text) == [] || overlap <= 0)
    ensures Strip(text) == [] ==> r == Returns([])
    ensures r.Returns? ==>
      Halted(Strip(text), chunkSize, overlap, |r.chunks|) &&
      r.chunks == Run(Strip(text), chunkSize, overlap, |r.chunks|).chunks
    ensures r.Returns? && overlap == 0 ==>
      Concat(r.chunks) == Strip(text) &&
      forall i :: 0 <= i < |r.chunks| - 1 ==> |r.chunks[i]| == chunkSize
    ensures r.Hangs? ==>
      Run(Strip(text), chunkSize, overlap, r.pass + 1).start == Run(Strip(text), chunkSize, overlap, r.pass).start
    ensures r.Hangs? ==> forall k: nat :: Run(Strip(text), chunkSize, overlap, k).start < |Strip(text)|
  {
    var t := Strip(text);
    if t == [] {
      return Returns([]);
    }
    r := CutWindows(t, chunkSize, overlap);
    if r.Returns? && overlap == 0 {
      NoOverlapResult(t, chunkSize, |r.chunks|);
    }
  }

  /** `"".join` of the chunks, each after the first with its leading `overlap` characters removed. */
  function Reassemble(chunks: seq<string>, overlap: nat): string
  {
    if chunks == [] then ""
    else if |chunks| == 1 then chunks[0]
    else
      var last := chunks[|chunks| - 1];
      Reassemble(chunks[..|chunks| - 1], overlap) + (if overlap <= |last| then last[overlap..] else "")
  }

  lemma ReassembleAppend(chunks: seq<string>, window: string, overlap: nat)
    requires chunks != [] && overlap <= |window|
    ensures Reassemble(chunks + [window], overlap) == Reassemble(chunks, overlap) + window[overlap..]
  {
    assert (chunks + [window])[..|chunks|] == chunks;
  }

  /** The reassembled text begins with the first chunk, whole. */
  lemma {:induction false} ReassembleStartsWithFirst(chunks: seq<string>, overlap: nat)
    requires chunks != []
    ensures chunks[0] <= Reassemble(chunks, overlap)
  {
    if |chunks| > 1 {
      var init := chunks[..|chunks| - 1];
      ReassembleStartsWithFirst(init, overlap);
      assert init[0] == chunks[0];
    }
  }

  datatype ChunkError = InvalidConfiguration

  /**
   * The state of the intended loop before a pass: every chunk so far is full,
   * neighbours share `overlap` characters, the last one ends `overlap`
   * characters after `start`, and removing the overlaps gives the text up to there.
   */
  ghost predicate CutSoFar(t: string, chunkSize: int, overlap: int, start: int, chunks: seq<string>)
  {
    0 <= overlap < chunkSize && 0 <= start < |t| &&
    (chunks == [] ==> start == 0) &&
    (chunks != [] ==>
      chunkSize <= start + overlap < |t| &&
      Reassemble(chunks, overlap) == t[..start + overlap] &&
      chunks[|chunks| - 1] == t[start + overlap - chunkSize..start + overlap]) &&
    (forall i :: 0 <= i < |chunks| ==> |chunks[i]| == chunkSize) &&
    (forall i :: 0 <= i < |chunks| - 1 ==> chunks[i][chunkSize - overlap..] == chunks[i + 1][..overlap])
  }

  /** The properties `ChunkTextChecked` promises of its result. */
  ghost predicate Covers(t: string, chunkSize: int, overlap: int, c: seq<string>)
    requires 0 <= overlap
  {
    Reassemble(c, overlap) == t &&
    (forall i :: 0 <= i < |c| ==> 0 < |c[i]| <= chunkSize) &&
    (forall i :: 0 <= i < |c| - 1 ==> |c[i]| == chunkSize) &&
    (forall i :: 0 < i < |c| ==> |c[i]| > overlap) &&
    (forall i :: 0 <= i < |c| - 1 ==> c[i][chunkSize - overlap..] == c[i + 1][..overlap])
  }

  /** A covering chunking spells `(|c| - 1) * (chunk_size - overlap)` characters before its last chunk. */
  lemma {:induction false} CoverLength(c: seq<string>, chunkSize: int, overlap: nat)
    requires c != []
    requires forall i :: 0 <= i < |c| - 1 ==> |c[i]| == chunkSize
    requires forall i :: 0 < i < |c| ==> |c[i]| > overlap
    ensures |Reassemble(c, overlap)| == (|c| - 1) * (chunkSize - overlap) + |c[|c| - 1]|
  {
    if |c| > 1 {
      var init := c[..|c| - 1];
      CoverLength(init, chunkSize, overlap);
      assert |init[|init| - 1]| == chunkSize;
    }
  }

  /**
   * With the defaults (1200, 200), every covering chunking of 2500
   * characters has three chunks, of lengths 1200, 1200 and 500.
   */
  lemma DefaultsCoverLengths(t: string, c: seq<string>)
    requires |t| == 2500 && Covers(t, 1200, 200, c)
    ensures |c| == 3 && |c[0]| == 1200 && |c[1]| == 1200 && |c[2]| == 500
  {
    assert c != [];
    CoverLength(c, 1200, 200);
  }

  /** Cutting the next window extends the reassembled text to the window's end. */
  lemma CutReassemble(t: string, chunkSize: int, overlap: int, start: int, chunks: seq<string>)
    requires CutSoFar(t, chunkSize, overlap, start, chunks)
    ensures var end := End(|t|, chunkSize, start);
      (chunks != [] ==> overlap < end - start) && Reassemble(chunks + [t[start..end]], overlap) == t[..end]
  {
    var end := End(|t|, chunkSize, start);
    var window := t[start..end];
    if chunks == [] {
      assert chunks + [window] == [window];
    } else {
      ReassembleAppend(chunks, window, overlap);
      assert window[overlap..] == t[start + overlap..end];
      SliceSplit(t, start + overlap, end);
    }
  }

  /** The last chunk so far and the next window share `overlap` characters. */
  lemma CutOverlaps(t: string, chunkSize: int, overlap: int, start: int, chunks: seq<string>)
    requires CutSoFar(t, chunkSize, overlap, start, chunks)
    ensures var c := chunks + [t[start..End(|t|, chunkSize, start)]];
      forall i :: 0 <= i < |c| - 1 ==> c[i][chunkSize - overlap..] == c[i + 1][..overlap]
  {
    var end := End(|t|, chunkSize, start);
    var window := t[start..end];
    var c := chunks + [window];
    forall i | 0 <= i < |c| - 1 ensures c[i][chunkSize - overlap..] == c[i + 1][..overlap] {
      if i < |chunks| - 1 {
        assert c[i] == chunks[i] && c[i + 1] == chunks[i + 1];
      } else {
        var last := chunks[|chunks| - 1];
        assert c[i] == last && c[i + 1] == window;
        assert last[chunkSize - overlap..] == t[start..start + overlap];
        assert window[..overlap] == t[start..start + overlap];
      }
    }
  }

  /** The lengths of the chunks after the next window is cut. */
  lemma CutLengths(t: string, chunkSize: int, overlap: int, start: int, chunks: seq<string>)
    requires CutSoFar(t, chunkSize, overlap, start, chunks)
    ensures var end := End(|t|, chunkSize, start);
      var c := chunks + [t[start..end]];
      (forall i :: 0 <= i < |c| ==> 0 < |c[i]| <= chunkSize) &&
      (forall i :: 0 <= i < |c| - 1 ==> |c[i]| == chunkSize) &&
      (forall i :: 0 < i < |c| ==> |c[i]| > overlap) &&
      (end < |t| ==> forall i :: 0 <= i < |c| ==> |c[i]| == chunkSize)
  {
    var end := End(|t|, chunkSize, start);
    var c := chunks + [t[start..end]];
    CutReassemble(t, chunkSize, overlap, start, chunks);
    assert forall i :: 0 <= i < |chunks| ==> c[i] == chunks[i];
  }

  /** The window that reaches the end of the text completes a covering cut. */
  lemma CutFinish(t: string, chunkSize: int, overlap: int, start: int, chunks: seq<string>)
    requires CutSoFar(t, chunkSize, overlap, start, chunks)
    requires End(|t|, chunkSize, start) == |t|
    ensures Covers(t, chunkSize, overlap, chunks + [t[start..End(|t|, chunkSize, start)]])
  {
    CutReassemble(t, chunkSize, overlap, start, chunks);
    CutOverlaps(t, chunkSize, overlap, start, chunks);
    CutLengths(t, chunkSize, overlap, start, chunks);
    assert t[..|t|] == t;
  }

  /** Any other window keeps `CutSoFar`, with the next start `overlap` before its end. */
  lemma CutContinue(t: string, chunkSize: int, overlap: int, start: int, chunks: seq<string>)
    requires CutSoFar(t, chunkSize, overlap, start, chunks)
    requires End(|t|, chunkSize, start) < |t|
    ensures var end := End(|t|, chunkSize, start);
      CutSoFar(t, chunkSize, overlap, end - overlap, chunks + [t[start..end]])
  {
    CutReassemble(t, chunkSize, overlap, start, chunks);
    CutOverlaps(t, chunkSize, overlap, start, chunks);
    CutLengths(t, chunkSize, overlap, start, chunks);
  }

  /** Without overlap, the intended loop is where the source's loop is after as many passes. */
  ghost predicate KeepsPace(t: string, chunkSize: int, overlap: int, start: int, chunks: seq<string>)
    requires chunkSize > 0
  {
    overlap == 0 ==> start == Run(t, chunkSize, 0, |chunks|).start && chunks == Run(t, chunkSize, 0, |chunks|).chunks
  }

  /** Without overlap, a pass of the source's loop moves `start` to the end of the window it cuts, as the intended loop does. */
  lemma NoOverlapPass(t: string, chunkSize: int, overlap: int, start: int, chunks: seq<string>)
    requires chunkSize > 0 && 0 <= start < |t| && KeepsPace(t, chunkSize, overlap, start, chunks)
    ensures var end := End(|t|, chunkSize, start);
      KeepsPace(t, chunkSize, overlap, end - overlap, chunks + [t[start..end]]) &&
      (overlap == 0 && end == |t| ==> Halted(t, chunkSize, 0, |chunks| + 1))
  {
  }

  /**
   * The chunker as evidently intended: the configuration is checked first,
   * and the loop stops after the window that reaches the end of the text.
   * Removing the overlap from every chunk after the first gives back the
   * stripped text; all chunks but the last are full; neighbours share
   * exactly `overlap` characters; with `overlap == 0` it returns what the
   * source's loop returns.
   */
  method ChunkTextChecked(text: string, chunkSize: int, overlap: int) returns (r: Result<seq<string>, ChunkError>)
    ensures r.Failure? <==> !(0 <= overlap < chunkSize)
    ensures r.Success? ==> (r.value == [] <==> Strip(text) == [])
    ensures r.Success? ==> Covers(Strip(text), chunkSize, overlap, r.value)
    ensures r.Success? && overlap == 0 ==>
      Halted(Strip(text), chunkSize, 0, |r.value|) && r.value == Run(Strip(text), chunkSize, 0, |r.value|).chunks
  {
    if !(0 <= overlap < chunkSize) {
      return Failure(InvalidConfiguration);
    }
    var t := Strip(text);
    if t == [] {
      return Success([]);
    }
    var chunks := CutCovering(t, chunkSize, overlap);
    return Success(chunks);
  }

  /** The intended window loop on a non-empty stripped text `t`. */
  method CutCovering(t: string, chunkSize: int, overlap: int) returns (chunks: seq<string>)
    requires 0 <= overlap < chunkSize && t != []
    ensures chunks != [] && Covers(t, chunkSize, overlap, chunks)
    ensures overlap == 0 ==> Halted(t, chunkSize, 0, |chunks|) && chunks == Run(t, chunkSize, 0, |chunks|).chunks
  {
    chunks := [];
    var start := 0;
    while true
      invariant CutSoFar(t, chunkSize, overlap, start, chunks)
      invariant KeepsPace(t, chunkSize, overlap, start, chunks)
      decreases |t| - start
    {
      var end := End(|t|, chunkSize, start);
      NoOverlapPass(t, chunkSize, overlap, start, chunks);
      if end == |t| {
        CutFinish(t, chunkSize, overlap, start, chunks);
        chunks := chunks + [t[start..end]];
        return;
      }
      CutContinue(t, chunkSize, overlap, start, chunks);
      chunks := chunks + [t[start..end]];
      start := end - overlap;
    }
  }

  /**
   * With the defaults `chunk_size=1200, overlap=200` the call
   * `chunk_text(extracted_text)` of the upload route never returns on a
   * 2500-character text: the windows start at 0, 1000 and 2000, and from the
   * fourth pass on the window `[2300, 2500)` is cut again and again.
   */
  lemma DefaultsRepeatLastWindow()
    ensures var t := seq(2500, _ => 'A');
      Run(t, 1200, 200, 3).start == 2300 && Run(t, 1200, 200, 4).start == 2300 &&
      Run(t, 1200, 200, 5).chunks == Run(t, 1200, 200, 4).chunks + [t[2300..]]
  {
    var t := seq(2500, _ => 'A');
    assert Run(t, 1200, 200, 1).start == 1000;
    assert Run(t, 1200, 200, 2).start == 2000;
    assert Run(t, 1200, 200, 3).start == 2300;
    assert Run(t, 1200, 200, 4).start == 2300;
    assert End(|t|, 1200, 2300) == 2500;
    assert Run(t, 1200, 200, 5) == Pass(t, 1200, 200, Run(t, 1200, 200, 4));
    assert t[2300..2500] == t[2300..];
  }
}
