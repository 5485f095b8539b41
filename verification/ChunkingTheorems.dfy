/** What the chunks of a text guarantee. */
module ChunkingTheorems {
  import opened Text
  import opened Paragraphs
  import opened Chunking

  predicate AllParagraphs(ps: seq<string>) {
    forall k | 0 <= k < |ps| :: ps[k] != ""
  }

  lemma {:induction false} WindowSizes(p: string, start: nat, size: nat, stride: nat)
    requires size >= 1 && stride >= 1
    ensures forall c | c in Windows(p, start, size, stride) :: 1 <= |c| <= size
    decreases if start < |p| then |p| - start else 0
  {
    if start < |p| { WindowSizes(p, start + stride, size, stride); }
  }

  /** No chunk is empty or longer than the limit. */
  lemma {:induction false} ChunkSizes(ps: seq<string>, size: nat, overlap: int)
    requires size >= 1 && AllParagraphs(ps)
    ensures forall c | c in Chunks(ps, size, overlap) :: 1 <= |c| <= size
    decreases |ps|
  {
    if ps != [] {
      if |ps[0]| > size {
        WindowSizes(ps[0], 0, size, Stride(size, overlap));
        ChunkSizes(ps[1..], size, overlap);
      } else {
        var k := PackFrom(ps, 1, size);
        assert Join(ps[..1]) == ps[0];
        PackFits(ps, 1, size);
        JoinGrows(ps, 1, k);
        ChunkSizes(ps[k..], size, overlap);
      }
    }
  }

  /** A division of paragraphs into consecutive groups, given by the group sizes, each of which joins
      into at most `size` characters. */
  ghost predicate IsPartition(groups: seq<nat>, ps: seq<string>, size: nat)
    decreases |groups|
  {
    if groups == [] then ps == []
    else 1 <= groups[0] <= |ps| && |Join(ps[..groups[0]])| <= size && IsPartition(groups[1..], ps[groups[0]..], size)
  }

  predicate AllFit(ps: seq<string>, size: nat) {
    forall k | 0 <= k < |ps| :: |ps[k]| <= size
  }

  lemma {:induction false} SuffixJoinIsShorter(ps: seq<string>, i: nat, n: nat)
    requires i <= n <= |ps|
    ensures |Join(ps[i..n])| <= |Join(ps[..n])|
    decreases i
  {
    if 0 < i < n {
      assert ps[i - 1..n] == [ps[i - 1]] + ps[i..n];
      SuffixJoinIsShorter(ps, i - 1, n);
    } else if i == 0 {
      assert ps[0..n] == ps[..n];
    }
  }

  lemma ChunksNext(ps: seq<string>, size: nat, overlap: int)
    requires ps != [] && |ps[0]| <= size
    ensures |Chunks(ps, size, overlap)| == 1 + |Chunks(ps[PackFrom(ps, 1, size)..], size, overlap)|
  {
    hide Join, PackFrom;
  }

  lemma SliceOfSlice(ps: seq<string>, a: nat, b: nat, size: nat)
    requires a + b <= |ps| && AllFit(ps, size)
    ensures ps[a..][b..] == ps[a + b..] && AllFit(ps[a..], size)
  {
  }

  lemma FirstPackFits(ps: seq<string>, size: nat)
    requires ps != [] && AllFit(ps, size)
    ensures |Join(ps[..PackFrom(ps, 1, size)])| <= size && |ps[0]| <= size
  {
    assert Join(ps[..1]) == ps[0];
    PackFits(ps, 1, size);
  }

  lemma NoChunks(size: nat, overlap: int)
    ensures Chunks([], size, overlap) == []
  {
  }

  /** Starting later never takes more chunks. */
  lemma {:induction false} LaterIsNoWorse(ps: seq<string>, i: nat, size: nat, overlap: int)
    requires i <= |ps| && AllFit(ps, size)
    ensures |Chunks(ps[i..], size, overlap)| <= |Chunks(ps, size, overlap)|
    decreases |ps|
  {
    hide Join, PackFrom, AllFit, Chunks;
    if i == 0 {
      assert ps[0..] == ps;
    } else if i == |ps| {
      assert ps[i..] == [];
      NoChunks(size, overlap);
    } else {
      var k := PackFrom(ps, 1, size);
      FirstPackFits(ps, size);
      ChunksNext(ps, size, overlap);
      if i >= k {
        SliceOfSlice(ps, k, i - k, size);
        LaterIsNoWorse(ps[k..], i - k, size, overlap);
      } else {
        LaterInFirstGroup(ps, i, k, size, overlap);
        var next := i + PackFrom(ps[i..], 1, size);
        SliceOfSlice(ps, k, next - k, size);
        LaterIsNoWorse(ps[k..], next - k, size, overlap);
      }
    }
  }

  /** Starting inside the first group: one chunk, and what follows starts no earlier than its end. */
  lemma LaterInFirstGroup(ps: seq<string>, i: nat, k: nat, size: nat, overlap: int)
    requires i < k <= |ps| && |Join(ps[..k])| <= size && AllFit(ps, size)
    ensures var next := i + PackFrom(ps[i..], 1, size);
            && k <= next <= |ps|
            && |Chunks(ps[i..], size, overlap)| == 1 + |Chunks(ps[next..], size, overlap)|
  {
    hide Join, PackFrom;
    SliceOfSlice(ps, i, PackFrom(ps[i..], 1, size), size);
    FirstPackFits(ps[i..], size);
    hide AllFit, Chunks;
    LaterReachesFurther(ps, i, k, size);
    ChunksNext(ps[i..], size, overlap);
  }

  lemma LaterReachesFurther(ps: seq<string>, i: nat, k: nat, size: nat)
    requires i < k <= |ps| && |Join(ps[..k])| <= size && AllFit(ps, size)
    ensures i + PackFrom(ps[i..], 1, size) >= k
  {
    var rest := ps[i..];
    var m := PackFrom(rest, 1, size);
    assert Join(rest[..1]) == rest[0];
    PackFits(rest, 1, size);
    if i + m < k {
      assert rest[..m + 1] == ps[i..i + m + 1];
      SuffixJoinIsShorter(ps, i, i + m + 1);
      JoinGrows(ps, i + m + 1, k);
    }
  }

  /** Greedy packing is optimal: no division of the paragraphs into groups that fit has fewer groups
      than there are chunks. */
  lemma {:induction false} GreedyIsFewest(ps: seq<string>, groups: seq<nat>, size: nat, overlap: int)
    requires AllFit(ps, size) && IsPartition(groups, ps, size)
    ensures |Chunks(ps, size, overlap)| <= |groups|
    decreases |groups|
  {
    if groups != [] {
      var g := groups[0];
      ChunksNext(ps, size, overlap);
      hide Chunks, Join, PackFrom;
      var k := PackFrom(ps, 1, size);
      GreedyIsFewest(ps[g..], groups[1..], size, overlap);
      LaterReachesFurther(ps, 0, g, size);
      assert ps[0..] == ps;
      LaterIsNoWorse(ps[g..], k - g, size, overlap);
      assert ps[g..][k - g..] == ps[k..];
    }
  }

  /** The chunker's own groups. */
  function GreedyGroups(ps: seq<string>, size: nat): seq<nat>
    decreases |ps|
  {
    if ps == [] then [] else [PackFrom(ps, 1, size)] + GreedyGroups(ps[PackFrom(ps, 1, size)..], size)
  }

  /** And the bound is attained: the chunks themselves are such a division. */
  lemma {:induction false} GreedyIsPartition(ps: seq<string>, size: nat, overlap: int)
    requires AllFit(ps, size)
    ensures IsPartition(GreedyGroups(ps, size), ps, size)
    ensures |GreedyGroups(ps, size)| == |Chunks(ps, size, overlap)|
    decreases |ps|
  {
    if ps != [] {
      assert Join(ps[..1]) == ps[0];
      PackFits(ps, 1, size);
      GreedyIsPartition(ps[PackFrom(ps, 1, size)..], size, overlap);
    }
  }

  /** The first `stride` characters of each window, one after the other. */
  function Stitch(windows: seq<string>, stride: nat): string {
    if windows == [] then ""
    else (if |windows[0]| <= stride then windows[0] else windows[0][..stride]) + Stitch(windows[1..], stride)
  }

  lemma StitchNext(window: string, windows: seq<string>, stride: nat)
    ensures Stitch([window] + windows, stride) ==
            (if |window| <= stride then window else window[..stride]) + Stitch(windows, stride)
  {
    assert ([window] + windows)[1..] == windows;
  }

  lemma FirstOfWindow(p: string, start: nat, size: nat, stride: nat)
    requires stride <= size && start + stride < |p|
    ensures var window := p[start..if start + size < |p| then start + size else |p|];
            p[start..] == (if |window| <= stride then window else window[..stride]) + p[start + stride..]
  {
    var window := p[start..if start + size < |p| then start + size else |p|];
    assert (if |window| <= stride then window else window[..stride]) == p[start..start + stride];
  }

  /** The windows of a paragraph overlap without gaps: stitched together they are the paragraph. */
  lemma {:induction false} WindowsStitch(p: string, start: nat, size: nat, stride: nat)
    requires 1 <= stride <= size && start <= |p|
    ensures Stitch(Windows(p, start, size, stride), stride) == p[start..]
    decreases |p| - start
  {
    if start + stride < |p| {
      WindowsStitch(p, start + stride, size, stride);
      var window := p[start..if start + size < |p| then start + size else |p|];
      var windows := Windows(p, start + stride, size, stride);
      assert Windows(p, start, size, stride) == [window] + windows;
      hide Windows, Stitch;
      StitchNext(window, windows, stride);
      FirstOfWindow(p, start, size, stride);
    } else if start < |p| {
      assert Windows(p, start + stride, size, stride) == [];
      assert p[start..|p|] == p[start..];
      assert Windows(p, start, size, stride) == [p[start..]];
    }
  }

  function WindowFrom(p: string, from: nat, size: nat): string
    requires from <= |p|
  {
    p[from..if from + size < |p| then from + size else |p|]
  }

  lemma WindowsNext(p: string, start: nat, size: nat, stride: nat)
    requires stride >= 1
    ensures start >= |p| ==> Windows(p, start, size, stride) == []
    ensures start < |p| ==>
              Windows(p, start, size, stride) == [WindowFrom(p, start, size)] + Windows(p, start + stride, size, stride)
  {
  }

  /** The windows by position: the k-th starts k strides in, and they go on until one starts past the end. */
  lemma {:induction false} WindowAt(p: string, start: nat, size: nat, stride: nat, k: nat)
    requires stride >= 1
    ensures k < |Windows(p, start, size, stride)| <==> start + k * stride < |p|
    ensures start + k * stride < |p| ==> Windows(p, start, size, stride)[k] == WindowFrom(p, start + k * stride, size)
    decreases k
  {
    hide Windows, WindowFrom;
    WindowsNext(p, start, size, stride);
    assert k * stride >= 0;
    if k > 0 {
      var before := (k - 1) * stride;
      assert k * stride == stride + before && before >= 0;
      if start < |p| { WindowAt(p, start + stride, size, stride, k - 1); }
    }
  }

  lemma OverlapFrom(p: string, from: nat, size: nat, stride: nat)
    requires stride <= size && from + stride < |p|
    ensures var a, b := WindowFrom(p, from, size), WindowFrom(p, from + stride, size);
            stride <= |a| <= size && a[stride..] <= b && (|a| < size ==> a[stride..] == b)
  {
    var a, b := WindowFrom(p, from, size), WindowFrom(p, from + stride, size);
    assert forall i | 0 <= i < |a| - stride :: a[stride..][i] == p[from + stride + i] == b[i];
  }

  /** Neighbouring windows overlap: what follows the first `size - overlap` characters of a window begins the next one,
      and is `overlap` characters long unless the paragraph ends before. */
  lemma WindowsOverlap(p: string, size: nat, overlap: nat, k: nat)
    requires overlap < size && k + 1 < |Windows(p, 0, size, Stride(size, overlap))|
    ensures var a, b := Windows(p, 0, size, Stride(size, overlap))[k], Windows(p, 0, size, Stride(size, overlap))[k + 1];
            size - overlap <= |a| <= size && a[size - overlap..] <= b && (|a| < size ==> a[size - overlap..] == b)
  {
    var stride := Stride(size, overlap);
    assert stride == size - overlap;
    WindowAt(p, 0, size, stride, k);
    WindowAt(p, 0, size, stride, k + 1);
    hide Windows, Stride;
    var from := k * stride;
    assert (k + 1) * stride == from + stride;
    assert from >= 0;
    OverlapFrom(p, from, size, stride);
  }

  /** Where chunks come from: several paragraphs packed together, or one cut into windows. */
  datatype Block = Packed(chunk: string) | Cut(windows: seq<string>)

  function Blocks(ps: seq<string>, size: nat, overlap: int): seq<Block>
    decreases |ps|
  {
    if ps == [] then []
    else if |ps[0]| > size then [Cut(Windows(ps[0], 0, size, Stride(size, overlap)))] + Blocks(ps[1..], size, overlap)
    else [Packed(Join(ps[..PackFrom(ps, 1, size)]))] + Blocks(ps[PackFrom(ps, 1, size)..], size, overlap)
  }

  function ChunksOf(blocks: seq<Block>): seq<string> {
    if blocks == [] then []
    else (match blocks[0] case Packed(chunk) => [chunk] case Cut(windows) => windows) + ChunksOf(blocks[1..])
  }

  /** Reading paragraphs back: split a packed chunk, stitch a cut paragraph. */
  function Restore(blocks: seq<Block>, stride: nat): seq<string> {
    if blocks == [] then []
    else (match blocks[0] case Packed(chunk) => ParagraphsOf(chunk) case Cut(windows) => [Stitch(windows, stride)])
         + Restore(blocks[1..], stride)
  }

  /** Nothing is lost and nothing is reordered: from the chunks every paragraph can be read back, whole
      and in order, if the overlap is not negative. */
  lemma {:induction false} ParagraphsAreRestored(ps: seq<string>, size: nat, overlap: nat)
    requires size >= 1 && forall k | 0 <= k < |ps| :: IsParagraph(ps[k])
    ensures ChunksOf(Blocks(ps, size, overlap)) == Chunks(ps, size, overlap)
    ensures Restore(Blocks(ps, size, overlap), Stride(size, overlap)) == ps
    decreases |ps|
  {
    if ps != [] {
      hide Join, PackFrom, Windows, IsParagraph, Stride, ParagraphsOf, Stitch;
      var blocks := Blocks(ps, size, overlap);
      if |ps[0]| > size {
        ParagraphsAreRestored(ps[1..], size, overlap);
        WindowsStitch(ps[0], 0, size, Stride(size, overlap));
        assert blocks[1..] == Blocks(ps[1..], size, overlap);
        assert ps == [ps[0]] + ps[1..];
      } else {
        var k := PackFrom(ps, 1, size);
        ParagraphsAreRestored(ps[k..], size, overlap);
        ParagraphsOfJoin(ps[..k]);
        assert blocks[1..] == Blocks(ps[k..], size, overlap);
        assert ps == ps[..k] + ps[k..];
      }
    }
  }

  /** A text has chunks exactly when it is not blank. */
  lemma ChunksExistUnlessBlank(text: string, size: nat, overlap: int)
    requires size >= 1
    ensures Chunks(ParagraphsOf(text), size, overlap) == [] <==> Blank(text)
  {
    ParagraphsKeepInk(text);
  }
}
