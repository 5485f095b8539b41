/** Splitting a text at blank lines, as `re.split(r"\n\s*\n", text)` followed by `strip` does. */
module Paragraphs {
  import opened Text

  /** From just after a newline: how far the white space reaches that ends in a further newline. */
  function NewlineReach(s: string): (n: nat)
    ensures n <= |s|
    ensures n > 0 ==> s[n - 1] == '\n' && forall i | 0 <= i < n :: IsSpace(s[i])
  {
    if s == "" || !IsSpace(s[0]) then 0
    else if NewlineReach(s[1..]) > 0 then 1 + NewlineReach(s[1..])
    else if s[0] == '\n' then 1
    else 0
  }

  /** The pieces between separators. A separator starts at the first newline that only white space
      divides from a later newline, and extends to the last such newline. */
  function Split(text: string): (pieces: seq<string>)
    ensures |pieces| > 0
    decreases |text|
  {
    if text == "" then [""]
    else if text[0] == '\n' && NewlineReach(text[1..]) > 0 then [""] + Split(text[1 + NewlineReach(text[1..])..])
    else
      var rest := Split(text[1..]);
      [[text[0]] + rest[0]] + rest[1..]
  }

  /** The stripped pieces that are not blank. */
  function NonBlank(pieces: seq<string>): seq<string> {
    if pieces == [] then []
    else (if Strip(pieces[0]) == "" then [] else [Strip(pieces[0])]) + NonBlank(pieces[1..])
  }

  function ParagraphsOf(text: string): seq<string> {
    NonBlank(Split(text))
  }

  /** Two newlines with only white space between them. */
  predicate BlankLine(s: string, i: int, j: int) {
    0 <= i < j < |s| && s[i] == '\n' && s[j] == '\n' && forall k | i < k < j :: IsSpace(s[k])
  }

  ghost predicate NoBlankLine(s: string) {
    forall i, j :: !BlankLine(s, i, j)
  }

  /** What `ParagraphsOf` yields. */
  ghost predicate IsParagraph(p: string) {
    p != "" && Trimmed(p) && NoBlankLine(p)
  }

  lemma {:induction false} ReachIsBlankLine(s: string, j: nat)
    requires j < |s| && s[j] == '\n' && forall k | 0 <= k < j :: IsSpace(s[k])
    ensures NewlineReach(s) > j
  {
    if j > 0 {
      assert s[1..][j - 1] == '\n' && forall k | 0 <= k < j - 1 :: IsSpace(s[1..][k]);
      ReachIsBlankLine(s[1..], j - 1);
    }
  }

  lemma SubstringHasNoBlankLine(s: string, from: nat, to: nat)
    requires from <= to <= |s| && NoBlankLine(s)
    ensures NoBlankLine(s[from..to])
  {
    var t := s[from..to];
    forall i, j | BlankLine(t, i, j) ensures false {
      assert forall k | 0 <= k < |t| :: t[k] == s[from + k];
      assert forall k | from + i < k < from + j :: s[k] == t[k - from];
      assert BlankLine(s, from + i, from + j);
    }
  }

  /** The first piece begins the text, and no piece contains a blank line. */
  lemma {:induction false} PiecesHaveNoBlankLine(text: string)
    ensures Split(text)[0] <= text
    ensures forall k | 0 <= k < |Split(text)| :: NoBlankLine(Split(text)[k])
    decreases |text|
  {
    if text != "" {
      if text[0] == '\n' && NewlineReach(text[1..]) > 0 {
        PiecesHaveNoBlankLine(text[1 + NewlineReach(text[1..])..]);
      } else {
        PiecesHaveNoBlankLine(text[1..]);
        var rest := Split(text[1..]);
        var first := [text[0]] + rest[0];
        assert first[1..] == rest[0];
        forall i, j | BlankLine(first, i, j) ensures false {
          if i > 0 {
            assert BlankLine(rest[0], i - 1, j - 1);
          } else {
            assert text[1..][j - 1] == first[j];
            assert forall k | 0 <= k < j - 1 :: text[1..][k] == first[k + 1];
            ReachIsBlankLine(text[1..], j - 1);
          }
        }
        assert Split(text) == [first] + rest[1..];
      }
    }
  }

  lemma {:induction false} StrippedPiecesAreParagraphs(pieces: seq<string>)
    requires forall k | 0 <= k < |pieces| :: NoBlankLine(pieces[k])
    ensures forall k | 0 <= k < |NonBlank(pieces)| :: IsParagraph(NonBlank(pieces)[k])
  {
    if pieces != [] {
      StrippedPiecesAreParagraphs(pieces[1..]);
      var p := pieces[0];
      var lead, trail := StripRemovesOnlySpace(p);
      assert Strip(p) == p[|lead|..|lead| + |Strip(p)|];
      SubstringHasNoBlankLine(p, |lead|, |lead| + |Strip(p)|);
    }
  }

  /** Every paragraph is non-empty, trimmed, and free of blank lines. */
  lemma ParagraphsAreParagraphs(text: string)
    ensures forall k | 0 <= k < |ParagraphsOf(text)| :: IsParagraph(ParagraphsOf(text)[k])
  {
    PiecesHaveNoBlankLine(text);
    StrippedPiecesAreParagraphs(Split(text));
  }

  /** The characters of a text that are not white space. */
  function Ink(s: string): string {
    if s == "" then "" else (if IsSpace(s[0]) then "" else [s[0]]) + Ink(s[1..])
  }

  function AllInk(pieces: seq<string>): string {
    if pieces == [] then "" else Ink(pieces[0]) + AllInk(pieces[1..])
  }

  lemma {:induction false} InkOfConcat(s: string, t: string)
    ensures Ink(s + t) == Ink(s) + Ink(t)
  {
    if s == "" {
      assert s + t == t;
    } else {
      InkOfConcat(s[1..], t);
      assert (s + t)[1..] == s[1..] + t && (s + t)[0] == s[0];
      var head := if IsSpace(s[0]) then "" else [s[0]];
      hide IsSpace;
      Associates(head, Ink(s[1..]), Ink(t));
    }
  }

  lemma Associates(a: string, b: string, c: string)
    ensures a + (b + c) == a + b + c
  {
  }

  lemma {:induction false} BlankHasNoInk(s: string)
    ensures Ink(s) == "" <==> Blank(s)
  {
    if s != "" {
      BlankHasNoInk(s[1..]);
      assert s == [s[0]] + s[1..];
    }
  }

  lemma StripKeepsInk(s: string)
    ensures Ink(Strip(s)) == Ink(s)
  {
    var lead, trail := StripRemovesOnlySpace(s);
    InkOfConcat(lead + Strip(s), trail);
    InkOfConcat(lead, Strip(s));
    BlankHasNoInk(lead);
    BlankHasNoInk(trail);
  }

  lemma SeparatorHasNoInk(text: string)
    requires text != "" && text[0] == '\n'
    ensures var n := 1 + NewlineReach(text[1..]); Ink(text) == Ink(text[n..])
  {
    var n := 1 + NewlineReach(text[1..]);
    assert text == text[..n] + text[n..];
    assert forall k | 1 <= k < n :: text[..n][k] == text[1..][k - 1];
    BlankHasNoInk(text[..n]);
    InkOfConcat(text[..n], text[n..]);
  }

  lemma {:induction false} SplitKeepsInk(text: string)
    ensures AllInk(Split(text)) == Ink(text)
    decreases |text|
  {
    if text != "" {
      if text[0] == '\n' && NewlineReach(text[1..]) > 0 {
        var n := 1 + NewlineReach(text[1..]);
        SplitKeepsInk(text[n..]);
        SeparatorHasNoInk(text);
        assert Split(text)[1..] == Split(text[n..]);
      } else {
        SplitKeepsInk(text[1..]);
        var rest := Split(text[1..]);
        var first := [text[0]] + rest[0];
        assert first[1..] == rest[0];
        assert Split(text)[0] == first && Split(text)[1..] == rest[1..];
        assert Ink(first) == Ink([text[0]]) + Ink(rest[0]) by { InkOfConcat([text[0]], rest[0]); }
        assert Ink(text) == Ink([text[0]]) + Ink(text[1..]) by {
          InkOfConcat([text[0]], text[1..]);
          assert [text[0]] + text[1..] == text;
        }
        assert Ink([text[0]]) + (Ink(rest[0]) + AllInk(rest[1..])) == Ink(first) + AllInk(rest[1..]);
      }
    }
  }

  lemma {:induction false} NonBlankKeepsInk(pieces: seq<string>)
    ensures AllInk(NonBlank(pieces)) == AllInk(pieces)
  {
    if pieces != [] {
      NonBlankKeepsInk(pieces[1..]);
      StripKeepsInk(pieces[0]);
      BlankHasNoInk(pieces[0]);
      if Strip(pieces[0]) != "" {
        assert NonBlank(pieces)[1..] == NonBlank(pieces[1..]);
      } else {
        assert NonBlank(pieces) == NonBlank(pieces[1..]);
      }
    }
  }

  /** No character that is not white space is lost between a text and its paragraphs. */
  lemma ParagraphsKeepInk(text: string)
    ensures AllInk(ParagraphsOf(text)) == Ink(text)
    ensures ParagraphsOf(text) == [] <==> Blank(text)
  {
    SplitKeepsInk(text);
    NonBlankKeepsInk(Split(text));
    BlankHasNoInk(text);
    if ParagraphsOf(text) != [] {
      ParagraphsAreParagraphs(text);
      BlankHasNoInk(ParagraphsOf(text)[0]);
    }
  }

  /** Paragraphs joined by blank lines. */
  function Join(ps: seq<string>): string {
    if ps == [] then "" else if |ps| == 1 then ps[0] else ps[0] + "\n\n" + Join(ps[1..])
  }

  lemma {:induction false} SplitOfWhole(p: string)
    requires NoBlankLine(p)
    ensures Split(p) == [p]
  {
    if p != "" {
      assert p[0] == '\n' && NewlineReach(p[1..]) > 0 ==> BlankLine(p, 0, NewlineReach(p[1..]));
      SubstringHasNoBlankLine(p, 1, |p|);
      assert p[1..|p|] == p[1..];
      SplitOfWhole(p[1..]);
      assert [p[0]] + p[1..] == p;
    }
  }

  lemma {:induction false} ReachStopsAtInk(s: string, t: string)
    requires !Blank(s)
    ensures NewlineReach(s + t) == NewlineReach(s)
  {
    assert (s + t)[1..] == s[1..] + t;
    if IsSpace(s[0]) {
      assert !Blank(s[1..]) by {
        var i :| 0 <= i < |s| && !IsSpace(s[i]);
        assert s[1..][i - 1] == s[i];
      }
      ReachStopsAtInk(s[1..], t);
    }
  }

  /** A paragraph followed by a blank line and another text splits off whole. */
  lemma {:induction false} SplitAfterParagraph(p: string, t: string)
    requires NoBlankLine(p) && (p != "" ==> !IsSpace(p[|p| - 1]))
    requires t != "" && !IsSpace(t[0])
    ensures Split(p + "\n\n" + t) == [p] + Split(t)
  {
    var whole := p + "\n\n" + t;
    if p == "" {
      assert whole[1..] == "\n" + t && ("\n" + t)[1..] == t;
      assert NewlineReach(t) == 0 && NewlineReach("\n" + t) == 1;
      assert whole[2..] == t;
    } else {
      assert whole[1..] == p[1..] + "\n\n" + t;
      if p[0] == '\n' {
        assert p[|p| - 1] == p[1..][|p| - 2];
        ReachStopsAtInk(p[1..], "\n\n" + t);
        assert p[1..] + ("\n\n" + t) == whole[1..];
        if NewlineReach(p[1..]) > 0 {
          assert BlankLine(p, 0, NewlineReach(p[1..]));
        }
      }
      SubstringHasNoBlankLine(p, 1, |p|);
      assert p[1..|p|] == p[1..];
      SplitAfterParagraph(p[1..], t);
      assert [p[0]] + p[1..] == p;
    }
  }

  lemma {:induction false} JoinStartsWithInk(ps: seq<string>)
    requires ps != [] && forall k | 0 <= k < |ps| :: IsParagraph(ps[k])
    ensures Join(ps) != "" && !IsSpace(Join(ps)[0])
  {
    assert Join(ps)[0] == ps[0][0];
  }

  /** Splitting is the inverse of joining: a chunk packed from paragraphs splits into exactly those
      paragraphs again. */
  lemma {:induction false} ParagraphsOfJoin(ps: seq<string>)
    requires forall k | 0 <= k < |ps| :: IsParagraph(ps[k])
    ensures ParagraphsOf(Join(ps)) == ps
  {
    if |ps| == 1 {
      SplitOfWhole(ps[0]);
      assert NonBlank([ps[0]]) == [ps[0]];
    } else if |ps| > 1 {
      ParagraphsOfJoin(ps[1..]);
      JoinStartsWithInk(ps[1..]);
      SplitAfterParagraph(ps[0], Join(ps[1..]));
      var pieces := Split(Join(ps));
      assert pieces[0] == ps[0] && pieces[1..] == Split(Join(ps[1..]));
      assert ps == [ps[0]] + ps[1..];
    }
  }
}
