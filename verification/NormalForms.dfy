/** What the normal forms of invoice numbers, vendor names, addresses and tokens forget, and what they keep. */
module NormalForms {
  import opened Text
  import opened Parsing

  predicate IsLetter(c: char) {
    'a' <= c <= 'z' || 'A' <= c <= 'Z'
  }

  predicate IsCapital(c: char) {
    'A' <= c <= 'Z'
  }

  // Case.

  /** The letters of the two cases, by their place in the alphabet. */
  lemma LowerCharMaps(c: char)
    ensures IsCapital(c) ==> LowerChar(c) as int - 'a' as int == c as int - 'A' as int
    ensures !IsCapital(c) ==> LowerChar(c) == c
    ensures 'a' <= c <= 'z' ==> UpperChar(c) as int - 'A' as int == c as int - 'a' as int
    ensures !('a' <= c <= 'z') ==> UpperChar(c) == c
  {
  }

  // Invoice numbers.

  lemma {:induction false} NumberOfConcat(a: string, b: string)
    ensures NormalizeInvoiceNumber(a + b) == NormalizeInvoiceNumber(a) + NormalizeInvoiceNumber(b)
  {
    if a == "" {
      assert a + b == b;
    } else {
      assert (a + b)[1..] == a[1..] + b;
      NumberOfConcat(a[1..], b);
    }
  }

  /** One character: a capital or a digit is kept, a small letter becomes its capital, anything else goes. With
      the law of concatenation this says what becomes of every number. */
  lemma NumberOfChar(c: char)
    ensures 'A' <= c <= 'Z' || '0' <= c <= '9' ==> NormalizeInvoiceNumber([c]) == [c]
    ensures 'a' <= c <= 'z' ==> NormalizeInvoiceNumber([c]) == [(c as int - 'a' as int + 'A' as int) as char]
    ensures !IsLetter(c) && !('0' <= c <= '9') ==> NormalizeInvoiceNumber([c]) == ""
  {
  }

  /** Two numbers that differ in case alone are the same number. */
  lemma {:induction false} NumberIgnoresCase(a: string, b: string)
    requires Lower(a) == Lower(b)
    ensures NormalizeInvoiceNumber(a) == NormalizeInvoiceNumber(b)
  {
    assert |Lower(a)| == |a| && |Lower(b)| == |b|;
    if a != "" {
      assert Lower(a)[0] == LowerChar(a[0]) && Lower(b)[0] == LowerChar(b[0]);
      assert Lower(a[1..]) == Lower(a)[1..] && Lower(b[1..]) == Lower(b)[1..];
      NumberIgnoresCase(a[1..], b[1..]);
    }
  }

  lemma {:induction false} PunctuationHasNoNumber(p: string)
    requires forall c | c in p :: !IsLetter(c) && !('0' <= c <= '9')
    ensures NormalizeInvoiceNumber(p) == ""
  {
    if p != "" {
      assert p[0] in p && forall c | c in p[1..] :: c in p;
      PunctuationHasNoNumber(p[1..]);
    }
  }

  /** Dashes, slashes, blanks and other separators do not distinguish numbers, wherever they stand. */
  lemma NumberIgnoresSeparators(a: string, p: string, b: string)
    requires forall c | c in p :: !IsLetter(c) && !('0' <= c <= '9')
    ensures NormalizeInvoiceNumber(a + p + b) == NormalizeInvoiceNumber(a + b)
  {
    PunctuationHasNoNumber(p);
    NumberOfConcat(a + p, b);
    NumberOfConcat(a, p);
    NumberOfConcat(a, b);
  }

  /** The number in normal form: capitals and digits only, and its own normal form. */
  lemma {:induction false} NumberIsPlain(s: string)
    ensures forall c | c in NormalizeInvoiceNumber(s) :: 'A' <= c <= 'Z' || '0' <= c <= '9'
    ensures NormalizeInvoiceNumber(NormalizeInvoiceNumber(s)) == NormalizeInvoiceNumber(s)
  {
    if s != "" {
      NumberIsPlain(s[1..]);
      assert s == [s[0]] + s[1..];
      NumberOfChar(s[0]);
      var first := NormalizeInvoiceNumber([s[0]]);
      if first != "" { NumberOfChar(first[0]); }
      NumberOfConcat(first, NormalizeInvoiceNumber(s[1..]));
    }
  }

  /** A number made of capitals and digits is kept as it is: no two of them are confused. */
  lemma {:induction false} PlainNumberIsKept(s: string)
    requires forall c | c in s :: 'A' <= c <= 'Z' || '0' <= c <= '9'
    ensures NormalizeInvoiceNumber(s) == s
  {
    if s != "" {
      assert s[0] in s && forall c | c in s[1..] :: c in s;
      PlainNumberIsKept(s[1..]);
    }
  }

  // Vendor names.

  /** Names that differ in case alone have one normal form. */
  lemma NameIgnoresCase(a: string, b: string)
    requires Lower(a) == Lower(b)
    ensures NormalizeVendorName(a) == NormalizeVendorName(b)
  {
  }

  /** A punctuation mark separates words as a blank does. */
  lemma PunctuationIsBlank(a: string, c: char, b: string)
    requires !IsLetter(c) && !IsDigit(c) && c != '_' && !IsSpace(c)
    ensures NormalizeVendorName(a + [c] + b) == NormalizeVendorName(a + " " + b)
  {
    FoldedPieces(a + [c], b);
    FoldedPieces(a, [c]);
    FoldedPieces(a + " ", b);
    FoldedPieces(a, " ");
    assert Folded([c]) == " " && Folded(" ") == " ";
  }

  lemma {:induction false} WordsOfTwo(a: string, b: string)
    ensures Words(a + " " + b) == Words(a) + Words(b)
  {
    var s := a + " " + b;
    if a == "" {
      assert s == " " + b && s[1..] == b;
    } else {
      var t := a[1..] + " " + b;
      assert s[1..] == t && s[0] == a[0];
      WordsOfTwo(a[1..], b);
      assert Words(t) == Words(a[1..]) + Words(b);
      if !IsSpace(a[0]) {
        WordsOfNonSpace(a);
        WordsOfNonSpace(s);
        if |a| == 1 {
          assert t == " " + b && t[0] == ' ' && s[1] == ' ';
          assert a == [a[0]];
          assert Words(s) == [[a[0]]] + Words(t);
        } else {
          assert s[1] == a[1] && t[0] == a[1];
        }
      }
    }
  }

  lemma SignificantStep(word: string, words: seq<string>)
    ensures Significant([word] + words) == (if word != "" && !IsSuffix(word) then [word] else []) + Significant(words)
  {
    hide IsSuffix;
    assert ([word] + words)[1..] == words;
  }

  lemma {:induction false} SignificantOfConcat(xs: seq<string>, ys: seq<string>)
    ensures Significant(xs + ys) == Significant(xs) + Significant(ys)
  {
    hide IsSuffix;
    if xs == [] {
      assert xs + ys == ys;
    } else {
      hide Significant;
      assert xs == [xs[0]] + xs[1..] && xs + ys == [xs[0]] + (xs[1..] + ys);
      SignificantStep(xs[0], xs[1..]);
      SignificantStep(xs[0], xs[1..] + ys);
      SignificantOfConcat(xs[1..], ys);
    }
  }

  lemma WordsWithSuffix(name: string, suffix: string)
    requires IsSuffix(Lower(suffix))
    ensures Words(Folded(name + " " + suffix)) == Words(Folded(name)) + [Lower(suffix)]
  {
    var token := Lower(suffix);
    SuffixIsWord(token);
    hide IsSuffix;
    FoldedPieces(name + " ", suffix);
    FoldedPieces(name, " ");
    assert Folded(" ") == " " && Folded(suffix) == token;
    WordsOfTwo(Folded(name), token);
    WordsOfWord(token, "");
  }

  lemma SuffixIsDropped(words: seq<string>, token: string)
    requires IsSuffix(token)
    ensures Significant(words + [token]) == Significant(words)
  {
    SignificantOfConcat(words, [token]);
    hide IsSuffix;
    assert [token][1..] == [];
  }

  /** A legal suffix does not distinguish vendors, in whatever case it is written, unless nothing else is left. */
  lemma SuffixIsIgnored(name: string, suffix: string)
    requires IsSuffix(Lower(suffix))
    requires Significant(Words(Folded(name))) != []
    ensures NormalizeVendorName(name + " " + suffix) == NormalizeVendorName(name)
  {
    hide *;
    WordsWithSuffix(name, suffix);
    SuffixIsDropped(Words(Folded(name)), Lower(suffix));
    NormalFormByWords(name);
    NormalFormByWords(name + " " + suffix);
  }

  lemma SuffixIsWord(token: string)
    requires IsSuffix(token)
    ensures token != "" && forall i | 0 <= i < |token| :: 'a' <= token[i] <= 'z'
  {
  }

  /** Words that are no suffixes distinguish vendors, and so does their order. */
  lemma CleanNameIsKept(words: seq<string>)
    requires words != [] && AllClean(words) && forall k | 0 <= k < |words| :: !IsSuffix(words[k])
    ensures NormalizeVendorName(JoinWithSpaces(words)) == JoinWithSpaces(words)
  {
    WordsOfJoin(words);
    CanonicalIsFixed(JoinWithSpaces(words));
    NormalFormByWords(JoinWithSpaces(words));
    AllSignificant(words);
  }

  lemma {:induction false} AllSignificant(words: seq<string>)
    requires AllClean(words) && forall k | 0 <= k < |words| :: !IsSuffix(words[k])
    ensures Significant(words) == words
  {
    if words != [] {
      AllSignificant(words[1..]);
      assert words == [words[0]] + words[1..];
    }
  }
}
