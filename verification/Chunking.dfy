/** `chunk_text`: greedy packing of paragraphs into chunks, with an overlapping hard split of
    paragraphs that are too long. */
module Chunking {
  import opened Text
  import opened Paragraphs

  /** The number of leading paragraphs that fit together, given that the first `n` do. */
  function PackFrom(ps: seq<string>, n: nat, size: nat): (k: nat)
    requires n <= |ps|
    ensures n <= k <= |ps|
    decreases |ps| - n
  {
    if n < |ps| && |Join(ps[..n + 1])| <= size then PackFrom(ps, n + 1, size) else n
  }

  /** How far apart the windows of a hard split start. */
  function Stride(size: int, overlap: int): (stride: nat)
    ensures stride >= 1
  {
    if size - overlap > 1 then size - overlap else 1
  }

  /** The overlapping windows of one paragraph, from a given start. */
  function Windows(p: string, start: nat, size: nat, stride: nat): seq<string>
    requires stride >= 1
    decreases if start < |p| then |p| - start else 0
  {
    if start >= |p| then []
    else [p[start..if start + size < |p| then start + size else |p|]] + Windows(p, start + stride, size, stride)
  }

  /** The chunks of a list of paragraphs: as many as fit go together, and one that does not fit on
      its own is cut into windows. */
  function Chunks(ps: seq<string>, size: nat, overlap: int): seq<string>
    decreases |ps|
  {
    if ps == [] then []
    else if |ps[0]| > size then Windows(ps[0], 0, size, Stride(size, overlap)) + Chunks(ps[1..], size, overlap)
    else [Join(ps[..PackFrom(ps, 1, size)])] + Chunks(ps[PackFrom(ps, 1, size)..], size, overlap)
  }

  lemma {:induction false} JoinAnother(ps: seq<string>, p: string)
    requires ps != []
    ensures Join(ps + [p]) == Join(ps) + "\n\n" + p
  {
    if |ps| > 1 {
      JoinAnother(ps[1..], p);
      assert (ps + [p])[1..] == ps[1..] + [p];
    }
  }

  lemma {:induction false} JoinGrows(ps: seq<string>, m: nat, n: nat)
    requires m <= n <= |ps|
    ensures |Join(ps[..m])| <= |Join(ps[..n])|
    decreases n - m
  {
    if m < n {
      if m > 0 {
        assert ps[..m + 1] == ps[..m] + [ps[m]];
        JoinAnother(ps[..m], ps[m]);
      }
      JoinGrows(ps, m + 1, n);
    }
  }

  /** `PackFrom` finds the longest prefix that fits. */
  lemma {:induction false} PackIsLongest(ps: seq<string>, n: nat, k: nat, size: nat)
    requires n <= k <= |ps| && |Join(ps[..k])| <= size
    requires k < |ps| ==> |Join(ps[..k + 1])| > size
    ensures PackFrom(ps, n, size) == k
    decreases k - n
  {
    if n < k {
      JoinGrows(ps, n + 1, k);
      PackIsLongest(ps, n + 1, k, size);
    }
  }

  lemma {:induction false} PackFits(ps: seq<string>, n: nat, size: nat)
    requires n <= |ps| && |Join(ps[..n])| <= size
    ensures |Join(ps[..PackFrom(ps, n, size)])| <= size
    ensures PackFrom(ps, n, size) < |ps| ==> |Join(ps[..PackFrom(ps, n, size) + 1])| > size
    decreases |ps| - n
  {
    if n < |ps| && |Join(ps[..n + 1])| <= size {
      PackFits(ps, n + 1, size);
    }
  }

  /** The inner loop, over the windows of an oversized paragraph. */
  method HardSplit(para: string, size: nat, overlap: int) returns (windows: seq<string>)
    ensures windows == Windows(para, 0, size, Stride(size, overlap))
  {
    windows := [];
    var start := 0;
    while start < |para|
      invariant windows + Windows(para, start, size, Stride(size, overlap)) == Windows(para, 0, size, Stride(size, overlap))
      decreases |para| - start
    {
      windows := windows + [para[start..if start + size < |para| then start + size else |para|]];
      start := start + Stride(size, overlap);
    }
  }

  /** Adding a paragraph to the pending group. */
  lemma Extended(ps: seq<string>, first: nat, i: nat)
    requires first <= i < |ps| && forall k | 0 <= k < |ps| :: ps[k] != ""
    ensures Join(ps[first..i + 1]) == if first == i then ps[i] else Join(ps[first..i]) + "\n\n" + ps[i]
    ensures Join(ps[first..i + 1]) != ""
  {
    assert ps[first..i + 1] == ps[first..i] + [ps[i]];
    if first < i { JoinAnother(ps[first..i], ps[i]); }
  }

  /** The pending group is the longest prefix that fits, so it is the next chunk. */
  lemma Flushed(ps: seq<string>, first: nat, i: nat, size: nat, overlap: int)
    requires first < i <= |ps| && |Join(ps[first..i])| <= size
    requires i < |ps| ==> |Join(ps[first..i + 1])| > size
    ensures Chunks(ps[first..], size, overlap) == [Join(ps[first..i])] + Chunks(ps[i..], size, overlap)
  {
    var rest := ps[first..];
    assert forall k | 0 <= k <= |rest| :: rest[..k] == ps[first..first + k];
    assert rest[i - first..] == ps[i..];
    JoinGrows(rest, 1, i - first);
    assert Join(rest[..1]) == rest[0];
    PackIsLongest(rest, 1, i - first, size);
  }

  lemma Cut(ps: seq<string>, i: nat, size: nat, overlap: int)
    requires i < |ps| && |ps[i]| > size
    ensures Chunks(ps[i..], size, overlap) ==
            Windows(ps[i], 0, size, Stride(size, overlap)) + Chunks(ps[i + 1..], size, overlap)
  {
    assert ps[i..][1..] == ps[i + 1..];
  }

  lemma NoParagraphsWithoutChunks(ps: seq<string>, size: nat, overlap: int)
    requires Chunks(ps, size, overlap) == []
    ensures ps == []
  {
  }

  /** The single pass over the paragraphs: `current` is the pending group. */
  method Pack(paragraphs: seq<string>, size: nat, overlap: int) returns (chunks: seq<string>)
    requires size >= 1 && forall k | 0 <= k < |paragraphs| :: paragraphs[k] != ""
    ensures chunks == Chunks(paragraphs, size, overlap)
  {
    hide Join, Windows, Stride;
    chunks := [];
    var current := "";
    ghost var first := 0;
    assert paragraphs[0..] == paragraphs && Join(paragraphs[0..0]) == "" by { EmptyJoin(paragraphs[0..0]); }
    for i := 0 to |paragraphs|
      invariant 0 <= first <= i
      invariant current == Join(paragraphs[first..i]) && |current| <= size
      invariant first == i <==> current == ""
      invariant chunks + Chunks(paragraphs[first..], size, overlap) == Chunks(paragraphs, size, overlap)
    {
      hide Chunks;
      var para := paragraphs[i];
      Extended(paragraphs, first, i);
      Extended(paragraphs, i, i);
      EmptyJoin(paragraphs[i + 1..i + 1]);
      if |current| + |para| + 2 <= size {
        current := if current != "" then current + "\n\n" + para else para;
      } else {
        if current != "" {
          Flushed(paragraphs, first, i, size, overlap);
          chunks := chunks + [current];
        }
        first := i;
        if |para| <= size {
          current := para;
        } else {
          var windows := HardSplit(para, size, overlap);
          Cut(paragraphs, i, size, overlap);
          chunks := chunks + windows;
          current := "";
          first := i + 1;
        }
      }
    }
    if current != "" {
      Flushed(paragraphs, first, |paragraphs|, size, overlap);
      chunks := chunks + [current];
    }
    assert paragraphs[|paragraphs|..] == [];
  }

  lemma EmptyJoin(ps: seq<string>)
    requires |ps| == 0
    ensures Join(ps) == ""
  {
  }

  /** The whole chunker. The last resort of returning the stripped text as one chunk never applies:
      a text without paragraphs is blank. */
  method ChunkText(text: string, size: nat, overlap: int) returns (chunks: seq<string>)
    requires size >= 1
    ensures chunks == Chunks(ParagraphsOf(text), size, overlap)
  {
    ParagraphsAreParagraphs(text);
    ParagraphsKeepInk(text);
    chunks := Pack(ParagraphsOf(text), size, overlap);
    if chunks == [] {
      NoParagraphsWithoutChunks(ParagraphsOf(text), size, overlap);
      if Strip(text) != "" {
        chunks := [Strip(text)];
      }
    }
  }
}
