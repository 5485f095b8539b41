/** The normal forms of vendor names and invoice numbers. */
module Parsing {
  import opened Text

  /** Legal suffixes that do not distinguish vendors. */
  predicate IsSuffix(token: string) {
    token in {"inc", "incorporated", "corp", "corporation", "co", "company", "ltd", "limited", "llc", "llp", "lp",
              "plc", "gmbh", "ag", "sa", "nv", "bv", "pvt", "private", "pte", "srl", "spa", "oy", "ab", "as", "kg",
              "group", "holdings", "international", "intl"}
  }

  /** Replaces every character that is neither a word character nor white space by a space. */
  function PunctuationToSpace(s: string): (r: string)
    ensures |r| == |s|
    ensures forall i | 0 <= i < |s| :: r[i] == if IsWord(s[i]) || IsSpace(s[i]) then s[i] else ' '
  {
    seq(|s|, i requires 0 <= i < |s| => if IsWord(s[i]) || IsSpace(s[i]) then s[i] else ' ')
  }

  /** Lower case, and no punctuation. */
  function Folded(s: string): (r: string)
    ensures |r| == |s|
  {
    PunctuationToSpace(Lower(s))
  }

  /** Replaces every run of white space by one space. */
  function Collapse(s: string): string {
    if s == "" then ""
    else if !IsSpace(s[0]) then [s[0]] + Collapse(s[1..])
    else if |s| > 1 && IsSpace(s[1]) then Collapse(s[1..])
    else " " + Collapse(s[1..])
  }

  /** `split(" ")`. */
  function SplitAtSpaces(s: string): (pieces: seq<string>)
    ensures |pieces| > 0
  {
    if s == "" then [""]
    else if s[0] == ' ' then [""] + SplitAtSpaces(s[1..])
    else
      var rest := SplitAtSpaces(s[1..]);
      [[s[0]] + rest[0]] + rest[1..]
  }

  /** `" ".join(...)`. */
  function JoinWithSpaces(words: seq<string>): string {
    if words == [] then "" else if |words| == 1 then words[0] else words[0] + " " + JoinWithSpaces(words[1..])
  }

  /** The tokens that are neither empty nor suffixes. */
  function Significant(tokens: seq<string>): seq<string> {
    if tokens == [] then []
    else (if tokens[0] != "" && !IsSuffix(tokens[0]) then [tokens[0]] else []) + Significant(tokens[1..])
  }

  function NormalizeVendorName(name: string): string {
    var text := Strip(Collapse(Folded(name)));
    var tokens := Significant(SplitAtSpaces(text));
    if tokens != [] then JoinWithSpaces(tokens) else text
  }

  function UpperChar(c: char): char {
    if 'a' <= c <= 'z' then c - 32 as char else c
  }

  /** Keeps letters and digits, in upper case. */
  function NormalizeInvoiceNumber(value: string): string {
    if value == "" then ""
    else (if IsWord(value[0]) && value[0] != '_' then [UpperChar(value[0])] else "") + NormalizeInvoiceNumber(value[1..])
  }

  /** The maximal runs of characters other than white space. */
  function Words(s: string): (words: seq<string>)
    ensures s != "" && !IsSpace(s[0]) ==> words != []
  {
    if s == "" then []
    else if IsSpace(s[0]) then Words(s[1..])
    else if |s| == 1 || IsSpace(s[1]) then [[s[0]]] + Words(s[1..])
    else
      var rest := Words(s[1..]);
      [[s[0]] + rest[0]] + rest[1..]
  }

  predicate IsClean(word: string) {
    word != "" && forall i | 0 <= i < |word| :: IsWord(word[i]) && LowerChar(word[i]) == word[i]
  }

  ghost predicate AllClean(words: seq<string>) {
    forall k | 0 <= k < |words| :: IsClean(words[k])
  }

  /** Lower-case word characters and white space only. */
  predicate IsCanonical(s: string) {
    forall i | 0 <= i < |s| :: IsSpace(s[i]) || (IsWord(s[i]) && LowerChar(s[i]) == s[i])
  }

  lemma LoweredIsCanonical(name: string)
    ensures IsCanonical(Folded(name))
  {
  }

  lemma {:induction false} WordsAreClean(s: string)
    requires IsCanonical(s)
    ensures AllClean(Words(s))
  {
    if s != "" { WordsAreClean(s[1..]); }
  }

  lemma {:induction false} BlankHasNoWords(s: string)
    ensures Words(s) == [] <==> Blank(s)
  {
    if s != "" {
      BlankHasNoWords(s[1..]);
      assert s == [s[0]] + s[1..];
    }
  }

  lemma {:induction false} CollapseOfBlank(s: string)
    requires Blank(s) && s != ""
    ensures Collapse(s) == " "
  {
    if |s| > 1 { CollapseOfBlank(s[1..]); }
  }

  function SpaceAt(s: string, i: nat): string
    requires i < |s|
  {
    if IsSpace(s[i]) then " " else ""
  }

  /** What a non-space first character does to the words that follow it. */
  lemma WordsOfNonSpace(s: string)
    requires s != "" && !IsSpace(s[0])
    ensures |s| == 1 ==> Words(s) == [s]
    ensures |s| > 1 && IsSpace(s[1]) ==> Words(s) == [[s[0]]] + Words(s[1..])
    ensures |s| > 1 && !IsSpace(s[1]) ==>
              && Words(s[1..]) != []
              && Words(s) == [[s[0]] + Words(s[1..])[0]] + Words(s[1..])[1..]
  {
    if |s| == 1 { assert s == [s[0]]; }
  }

  lemma JoinOfExtended(c: char, words: seq<string>)
    requires words != []
    ensures JoinWithSpaces([[c] + words[0]] + words[1..]) == [c] + JoinWithSpaces(words)
    ensures JoinWithSpaces([[c]] + words) == [c] + " " + JoinWithSpaces(words)
  {
    var extended := [[c] + words[0]] + words[1..];
    assert extended[1..] == words[1..];
    assert ([[c]] + words)[1..] == words;
  }

  lemma JoinOfOne(word: string)
    ensures JoinWithSpaces([word]) == word
  {
  }

  /** One step of collapsing, and what it does to the words. */
  lemma CollapseStep(s: string)
    requires s != ""
    ensures !IsSpace(s[0]) ==> Collapse(s) == [s[0]] + Collapse(s[1..])
    ensures IsSpace(s[0]) && |s| > 1 && IsSpace(s[1]) ==> Collapse(s) == Collapse(s[1..])
    ensures IsSpace(s[0]) && |s| > 1 && !IsSpace(s[1]) ==> Collapse(s) == " " + Collapse(s[1..])
    ensures IsSpace(s[0]) ==> Words(s) == Words(s[1..])
  {
    hide IsSpace;
  }

  lemma CollapseOfLast(s: string)
    requires s != "" && !IsSpace(s[0]) && Blank(s[1..])
    ensures Collapse(s) == [s[0]] + if |s| == 1 then "" else " "
    ensures Words(s) == [[s[0]]]
  {
    CollapseStep(s);
    WordsOfNonSpace(s);
    BlankHasNoWords(s[1..]);
    if |s| == 1 {
      assert s == [s[0]];
    } else {
      assert s[1..][0] == s[1];
      CollapseOfBlank(s[1..]);
    }
  }

  /** Collapsing joins the words by spaces, up to one space at either end. */
  lemma {:induction false} CollapseJoinsWords(s: string)
    requires !Blank(s)
    ensures Collapse(s) == SpaceAt(s, 0) + JoinWithSpaces(Words(s)) + SpaceAt(s, |s| - 1)
  {
    hide IsSpace, JoinWithSpaces, Collapse, Words;
    var t := s[1..];
    if Blank(t) {
      assert !IsSpace(s[0]) by { assert forall i | 1 <= i < |s| :: s[i] == t[i - 1]; }
      CollapseOfLast(s);
      JoinOfOne([s[0]]);
      if |s| > 1 { assert t[|t| - 1] == s[|s| - 1]; }
    } else {
      assert t[|t| - 1] == s[|s| - 1] && t[0] == s[1];
      CollapseStep(s);
      CollapseJoinsWords(t);
      if !IsSpace(s[0]) {
        hide Blank;
        BlankHasNoWords(t);
        WordsOfNonSpace(s);
        JoinOfExtended(s[0], Words(t));
      }
    }
  }

  lemma {:induction false} JoinIsTrimmed(words: seq<string>)
    requires words != [] && AllClean(words)
    ensures var s := JoinWithSpaces(words); s != "" && !IsSpace(s[0]) && !IsSpace(s[|s| - 1])
  {
    if |words| > 1 {
      JoinIsTrimmed(words[1..]);
    }
  }

  lemma StripOfPadded(lead: string, s: string, trail: string)
    requires Blank(lead) && Blank(trail) && s != "" && Trimmed(s)
    ensures Strip(lead + s + trail) == s
  {
    var padded := lead + s + trail;
    var n := LeadingSpaces(padded);
    assert padded[|lead|] == s[0];
    assert forall i | 0 <= i < |lead| :: padded[i] == lead[i];
    assert n == |lead|;
    var rest := padded[n..];
    assert rest == s + trail;
    assert rest[|s| - 1] == s[|s| - 1];
    assert forall i | |s| <= i < |rest| :: rest[i] == trail[i - |s|];
    assert TrailingFrom(rest) == |s|;
  }

  /** The intermediate text of normalisation is its words, joined by single spaces. */
  lemma TextIsJoinedWords(s: string)
    requires IsCanonical(s)
    ensures Strip(Collapse(s)) == JoinWithSpaces(Words(s))
  {
    BlankHasNoWords(s);
    if s == "" {
    } else if Blank(s) {
      CollapseOfBlank(s);
    } else {
      CollapseJoinsWords(s);
      WordsAreClean(s);
      JoinIsTrimmed(Words(s));
      StripOfPadded(SpaceAt(s, 0), JoinWithSpaces(Words(s)), SpaceAt(s, |s| - 1));
    }
  }

  lemma {:induction false} SplitWord(word: string, rest: string)
    requires forall i | 0 <= i < |word| :: word[i] != ' '
    ensures SplitAtSpaces(word) == [word]
    ensures SplitAtSpaces(word + " " + rest) == [word] + SplitAtSpaces(rest)
  {
    var s := word + " " + rest;
    if word == "" {
      assert s[1..] == rest;
    } else {
      SplitWord(word[1..], rest);
      assert s[1..] == word[1..] + " " + rest;
      assert [word[0]] + word[1..] == word;
    }
  }

  /** Splitting undoes joining. */
  lemma {:induction false} SplitOfJoin(words: seq<string>)
    requires words != [] && AllClean(words)
    ensures SplitAtSpaces(JoinWithSpaces(words)) == words
  {
    if |words| == 1 {
      SplitWord(words[0], "");
    } else {
      SplitOfJoin(words[1..]);
      SplitWord(words[0], JoinWithSpaces(words[1..]));
    }
  }

  /** What normalisation computes, said of the words of the name. */
  lemma NormalFormByWords(name: string)
    ensures var words := Words(Folded(name));
            && AllClean(words)
            && NormalizeVendorName(name) ==
               if Significant(words) != [] then JoinWithSpaces(Significant(words)) else JoinWithSpaces(words)
  {
    var s := Folded(name);
    LoweredIsCanonical(name);
    WordsAreClean(s);
    TextIsJoinedWords(s);
    if Words(s) != [] {
      SplitOfJoin(Words(s));
    } else {
      assert Significant([""]) == [];
    }
  }

  lemma {:induction false} WordsOfWord(word: string, rest: string)
    requires word != "" && forall i | 0 <= i < |word| :: !IsSpace(word[i])
    ensures Words(word) == [word]
    ensures Words(word + " " + rest) == [word] + Words(rest)
  {
    var s := word + " " + rest;
    var t := word[1..] + " " + rest;
    assert s[1..] == t;
    WordsOfNonSpace(word);
    WordsOfNonSpace(s);
    assert [word[0]] + word[1..] == word;
    if |word| == 1 {
      assert t[1..] == rest;
    } else {
      WordsOfWord(word[1..], rest);
      assert t[0] == word[1];
    }
  }

  lemma {:induction false} WordsOfJoin(words: seq<string>)
    requires AllClean(words)
    ensures Words(JoinWithSpaces(words)) == words && IsCanonical(JoinWithSpaces(words))
  {
    if |words| == 1 {
      WordsOfWord(words[0], "");
    } else if |words| > 1 {
      WordsOfJoin(words[1..]);
      WordsOfWord(words[0], JoinWithSpaces(words[1..]));
    }
  }

  lemma CanonicalIsFixed(s: string)
    requires IsCanonical(s)
    ensures Folded(s) == s
  {
  }

  lemma {:induction false} SignificantIsClean(words: seq<string>)
    requires AllClean(words)
    ensures AllClean(Significant(words))
    ensures Significant(Significant(words)) == Significant(words)
  {
    if words != [] {
      SignificantIsClean(words[1..]);
      var rest := Significant(words[1..]);
      if Significant(words) != rest {
        assert Significant(words)[1..] == rest;
      }
    }
  }

  /** Normalisation is idempotent: a normal form is its own normal form. */
  lemma NormalizationIsIdempotent(name: string)
    ensures NormalizeVendorName(NormalizeVendorName(name)) == NormalizeVendorName(name)
  {
    var words := Words(Folded(name));
    NormalFormByWords(name);
    SignificantIsClean(words);
    var kept := if Significant(words) != [] then Significant(words) else words;
    WordsOfJoin(kept);
    CanonicalIsFixed(JoinWithSpaces(kept));
    NormalFormByWords(JoinWithSpaces(kept));
  }

  lemma {:induction false} WordsIgnorePadding(lead: string, s: string, trail: string)
    requires Blank(lead) && Blank(trail)
    ensures Words(lead + s + trail) == Words(s)
    decreases |lead| + |s|
  {
    var padded := lead + s + trail;
    if lead != "" {
      assert padded[1..] == lead[1..] + s + trail;
      WordsIgnorePadding(lead[1..], s, trail);
    } else if s == "" {
      assert padded == trail;
      BlankHasNoWords(trail);
    } else {
      assert padded[1..] == "" + s[1..] + trail;
      WordsIgnorePadding("", s[1..], trail);
      if |s| == 1 {
        assert |padded| > 1 ==> padded[1] == trail[0];
      } else {
        assert padded[1] == s[1];
      }
    }
  }

  lemma FoldedPieces(a: string, b: string)
    ensures Folded(a + b) == Folded(a) + Folded(b)
  {
  }

  lemma FoldedBlank(s: string)
    requires Blank(s)
    ensures Blank(Folded(s))
  {
  }

  /** Stripping before or after replacing punctuation leaves the same words. */
  lemma StripKeepsWords(name: string)
    ensures Words(Folded(Strip(name))) == Words(Folded(name))
  {
    hide IsSuffix, Words, Blank, Strip, PunctuationToSpace;
    var lead, trail := StripRemovesOnlySpace(name);
    FoldedPieces(lead + Strip(name), trail);
    FoldedPieces(lead, Strip(name));
    FoldedBlank(lead);
    FoldedBlank(trail);
    WordsIgnorePadding(Folded(lead), Folded(Strip(name)), Folded(trail));
  }

  /** White space around a name does not matter. */
  lemma NormalizationIgnoresPadding(name: string)
    ensures NormalizeVendorName(Strip(name)) == NormalizeVendorName(name)
  {
    StripKeepsWords(name);
    NormalFormByWords(name);
    NormalFormByWords(Strip(name));
  }
}
