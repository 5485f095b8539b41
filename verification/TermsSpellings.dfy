/** The other spellings of payment terms that the five expressions allow, and the texts they do not match. */
module TermsSpellings {
  import opened JsonValues
  import opened Text
  import opened TermsParser

  /** Case and surrounding white space do not matter. */
  lemma ParseIgnoresCase(a: string, b: string)
    requires Lower(Strip(a)) == Lower(Strip(b))
    ensures Parse(a) == Parse(b)
  {
  }

  lemma GapBefore(gap: string, rest: string)
    requires Blank(gap) && (rest == "" || !IsSpace(rest[0]))
    ensures SkipSpaces(gap + rest) == rest
  {
    var n := LeadingSpaces(gap + rest);
    var s := gap + rest;
    assert forall i | 0 <= i < |gap| :: s[i] == gap[i];
    assert rest != "" ==> s[|gap|] == rest[0];
    assert n == |gap|;
    assert s[|gap|..] == rest;
  }

  lemma {:induction false} SearchFinds(at: Recogniser, s: string, i: nat, k: nat)
    requires i <= k <= |s| && at(s, k).Some?
    ensures Search(at, s, i).Some?
    decreases k - i
  {
    if at(s, i).None? { SearchFinds(at, s, i + 1, k); }
  }

  lemma {:induction false} SearchYields(at: Recogniser, s: string, i: nat, terms: Terms)
    requires i <= |s| && Search(at, s, i).Some? && forall k | i <= k <= |s| && at(s, k).Some? :: at(s, k) == Some(terms)
    ensures Search(at, s, i) == Some(terms)
    decreases |s| - i
  {
    if at(s, i).None? { SearchYields(at, s, i + 1, terms); }
  }

  // Due on receipt, wherever it stands.

  lemma DueAnywhere(s: string, k: nat)
    requires k <= |s| && DueAt(s, k).Some?
    ensures ParseLowered(s) == DueOnReceipt
  {
    hide DueReceipt, Skip;
    SearchFinds(DueAt, s, 0, k);
    SearchYields(DueAt, s, 0, DueOnReceipt);
    hide Search;
  }

  lemma Suffix(pre: string, rest: string)
    ensures (pre + rest)[|pre|..] == rest
  {
  }

  lemma DueReceiptOf(gap: string, mid: string, gap': string, post: string)
    requires Blank(gap) && Blank(gap') && mid in {"", "on", "upon"}
    ensures DueReceipt("due" + (gap + (mid + (gap' + ("receipt" + post)))))
  {
    hide Skip, SkipSpaces;
    var receipt := "receipt" + post;
    var tail := mid + (gap' + receipt);
    SkipOf("due", gap + tail);
    SkipOf("receipt", post);
    GapBefore(gap', receipt);
    if mid == "" {
      var both := gap + gap';
      assert gap + tail == both + receipt;
      GapBefore(both, receipt);
      NothingToSkip("on", receipt);
      NothingToSkip("upon", receipt);
      assert "" + receipt == receipt;
      GapBefore("", receipt);
    } else {
      GapBefore(gap, tail);
      SkipOf(mid, gap' + receipt);
      if mid == "upon" { NothingToSkip("on", tail); }
    }
  }

  /** `due receipt`, `due on receipt` and `due upon receipt`, with any white space between, `payable on receipt`, and the
      single word `dor` mean due on receipt, whatever stands around the phrases. */
  lemma DueSpellings(pre: string, gap: string, mid: string, gap': string, post: string)
    requires Blank(gap) && Blank(gap') && mid in {"", "on", "upon"}
    ensures ParseLowered(pre + ("due" + (gap + (mid + (gap' + ("receipt" + post)))))) == DueOnReceipt
    ensures ParseLowered(pre + ("payable on receipt" + post)) == DueOnReceipt
    ensures ParseLowered("dor") == DueOnReceipt
  {
    hide ParseLowered, Skip, DueReceipt;
    var phrase := "due" + (gap + (mid + (gap' + ("receipt" + post))));
    DueReceiptOf(gap, mid, gap', post);
    Suffix(pre, phrase);
    DueAnywhere(pre + phrase, |pre|);
    var payable := "payable on receipt" + post;
    SkipOf("payable on receipt", post);
    Suffix(pre, payable);
    DueAnywhere(pre + payable, |pre|);
    DueAnywhere("dor", 0);
  }

  // Cash on delivery.

  lemma CodAnywhere(s: string, k: nat)
    requires k <= |s| && CodAt(s, k).Some? && Search(DueAt, s, 0).None?
    ensures ParseLowered(s) == CashOnDelivery
  {
    hide CodLetters, Boundary, Skip, DueAt;
    SearchFinds(CodAt, s, 0, k);
    SearchYields(CodAt, s, 0, CashOnDelivery);
    hide Search;
  }

  lemma CodLettersOf(dot: string, dot': string, post: string)
    requires dot in {"", "."} && dot' in {"", "."} && !StartsWord(post)
    ensures CodLetters("c" + (dot + ("o" + (dot' + ("d" + post)))))
  {
    hide Skip;
    var d := "d" + post;
    var o := "o" + (dot' + d);
    SkipOf("c", dot + o);
    SkipOf("o", dot' + d);
    SkipOf("d", post);
    OptionalDot(dot, o);
    OptionalDot(dot', d);
  }

  lemma OptionalDot(dot: string, rest: string)
    requires dot in {"", "."} && rest != "" && rest[0] != '.'
    ensures SkipOptional(".", dot + rest) == rest
  {
    if dot == "" {
      assert dot + rest == rest;
      NothingToSkip(".", rest);
    } else {
      SkipOf(".", rest);
    }
  }

  /** `cod`, `c.o.d` and mixtures of them as a word of their own, and the phrase itself, mean cash on delivery, unless
      the text also says that it is due on receipt. */
  lemma CodSpellings(pre: string, dot: string, dot': string, post: string)
    requires dot in {"", "."} && dot' in {"", "."} && !StartsWord(post) && (pre == "" || !IsWord(pre[|pre| - 1]))
    ensures var s := pre + ("c" + (dot + ("o" + (dot' + ("d" + post)))));
            Search(DueAt, s, 0).None? ==> ParseLowered(s) == CashOnDelivery
    ensures var s := pre + ("cash on delivery" + post); Search(DueAt, s, 0).None? ==> ParseLowered(s) == CashOnDelivery
  {
    hide ParseLowered, Skip, CodLetters, Search;
    var cod := "c" + (dot + ("o" + (dot' + ("d" + post))));
    CodLettersOf(dot, dot', post);
    Suffix(pre, cod);
    assert cod[0] == 'c';
    if Search(DueAt, pre + cod, 0).None? { CodAnywhere(pre + cod, |pre|); }
    var cash := "cash on delivery" + post;
    SkipOf("cash on delivery", post);
    Suffix(pre, cash);
    if Search(DueAt, pre + cash, 0).None? { CodAnywhere(pre + cash, |pre|); }
  }

  // Net and end of month.

  /** No letter or sign that other terms need. */
  predicate Lacks(s: string, letters: string) {
    forall c | c in letters :: c !in s
  }

  lemma BlankLacks(gap: string, c: char)
    requires Blank(gap) && !IsSpace(c)
    ensures c !in gap
  {
  }

  lemma NetOf(word: string, gap: string, digits: string, post: string)
    requires word in {"net", "n"} && Blank(gap) && digits != "" && AllDigits(digits) && !StartsWord(post)
    ensures NetAt(word + (gap + (digits + post)), 0) == Some(Net(NatOf(digits)))
  {
    hide Skip, SkipSpaces, Digits, NatOf;
    var tail := gap + (digits + post);
    var s := word + tail;
    assert s[0..] == s && IsWord(s[0]);
    SkipOf(word, tail);
    if word == "n" { NotNet(tail, gap, digits, post); }
    GapBefore(gap, digits + post);
    DigitsOf(digits, post);
  }

  lemma NotNet(tail: string, gap: string, digits: string, post: string)
    requires tail == gap + (digits + post) && Blank(gap) && digits != "" && AllDigits(digits)
    ensures Skip("net", "n" + tail).None?
  {
    var s := "n" + tail;
    assert s[1] == tail[0] == if gap == "" then digits[0] else gap[0];
    if |s| >= 3 { assert s[..3][1] == s[1]; }
  }

  /** `net` or `n`, any white space or none, and the days, as a word of its own at the start. */
  lemma NetSpellings(word: string, gap: string, digits: string, post: string)
    requires word in {"net", "n"} && Blank(gap) && digits != "" && AllDigits(digits)
    requires !StartsWord(post) && Lacks(post, "rc/m")
    ensures ParseLowered(word + (gap + (digits + post))) == Net(NatOf(digits))
  {
    NetLacksLetters(word, gap, digits, post);
    NetOf(word, gap, digits, post);
    NetFirst(word + (gap + (digits + post)), NatOf(digits));
  }

  lemma NetLacksLetters(word: string, gap: string, digits: string, post: string)
    requires word in {"net", "n"} && Blank(gap) && AllDigits(digits) && Lacks(post, "rc/m")
    ensures Lacks(word + (gap + (digits + post)), "rc/m")
  {
    forall c | c in "rc/m" ensures c !in word + (gap + (digits + post)) {
      BlankLacks(gap, c);
      DigitsLack(digits, c);
      assert c !in word;
      hide AllDigits, Blank;
      SumLacks(digits, post, c);
      SumLacks(gap, digits + post, c);
      SumLacks(word, gap + (digits + post), c);
    }
  }

  lemma NetFirst(s: string, days: nat)
    requires NetAt(s, 0) == Some(Net(days)) && Lacks(s, "rc/m")
    ensures ParseLowered(s) == Net(days)
  {
    assert "rc/m"[0] == 'r' && "rc/m"[1] == 'c' && "rc/m"[2] == '/' && "rc/m"[3] == 'm';
    hide DueAt, CodAt, DiscountAt, EomAt, NetAt;
    DueNeedsR(s);
    CodNeedsC(s);
    DiscountNeedsSlash(s);
    EomNeedsM(s);
    assert Search(NetAt, s, 0) == Some(Net(days));
  }

  lemma EomReads(s: string, r: string, digits: string, rest: string, post: string)
    requires s != "" && IsWord(s[0]) && AllDigits(digits)
    requires r == if Skip("net", s).Some? then SkipSpaces(Skip("net", s).value) else s
    requires if digits == "" then Digits(r).None? && rest == r else Digits(r) == Some((digits, rest))
    requires Skip("eom", SkipSpaces(rest)) == Some(post) && !StartsWord(post)
    ensures EomAt(s, 0) == Some(EndOfMonth(NatOf(digits)))
  {
    assert NatOf("") == 0;
    hide Skip, SkipSpaces, NatOf, Digits;
    FromStart(s);
  }

  lemma EomBare(digits: string, gap: string, post: string)
    requires Blank(gap) && AllDigits(digits) && (digits == "" ==> gap == "") && !StartsWord(post)
    ensures EomAt(digits + (gap + ("eom" + post)), 0) == Some(EndOfMonth(NatOf(digits)))
  {
    hide Skip, SkipSpaces, Digits, EomAt;
    var eom := "eom" + post;
    var r := digits + (gap + eom);
    SkipOf("eom", post);
    EomDigits(digits, gap, eom);
    assert r != "" && (IsDigit(r[0]) || r[0] == 'e');
    NothingToSkip("net", r);
    EomReads(r, r, digits, gap + eom, post);
  }

  lemma EomAfterNet(gap0: string, digits: string, gap: string, post: string)
    requires Blank(gap0) && Blank(gap) && AllDigits(digits) && (digits == "" ==> gap == "") && !StartsWord(post)
    ensures EomAt("net" + (gap0 + (digits + (gap + ("eom" + post)))), 0) == Some(EndOfMonth(NatOf(digits)))
  {
    hide Skip, SkipSpaces, Digits, EomAt;
    var eom := "eom" + post;
    var r := digits + (gap + eom);
    SkipOf("eom", post);
    EomDigits(digits, gap, eom);
    assert r != "" && !IsSpace(r[0]);
    var s := "net" + (gap0 + r);
    SkipOf("net", gap0 + r);
    GapBefore(gap0, r);
    EomReads(s, r, digits, gap + eom, post);
  }

  lemma EomDigits(digits: string, gap: string, eom: string)
    requires Blank(gap) && AllDigits(digits) && (digits == "" ==> gap == "") && eom != "" && eom[0] == 'e'
    ensures var r := digits + (gap + eom);
            && SkipSpaces(gap + eom) == eom
            && if digits == "" then Digits(r).None? && r == gap + eom else Digits(r) == Some((digits, gap + eom))
  {
    GapBefore(gap, eom);
    assert gap + eom != "" && !IsDigit((gap + eom)[0]);
    if digits == "" {
      assert digits + (gap + eom) == gap + eom == eom;
    } else {
      DigitsOf(digits, gap + eom);
    }
  }

  /** `eom` with or without days before it, and with or without `net` before those, and the phrase itself. */
  lemma EomSpellings(net: bool, gap0: string, digits: string, gap: string, post: string)
    requires Blank(gap0) && Blank(gap) && AllDigits(digits) && (digits == "" ==> gap == "")
    requires !StartsWord(post) && Lacks(post, "rc/")
    ensures ParseLowered(if net then "net" + (gap0 + (digits + (gap + ("eom" + post)))) else digits + (gap + ("eom" + post))) ==
            EndOfMonth(NatOf(digits))
    ensures ParseLowered("end of month" + post) == EndOfMonth(0)
  {
    var r := digits + (gap + ("eom" + post));
    EomBare(digits, gap, post);
    EomAfterNet(gap0, digits, gap, post);
    EomLacksLetters(gap0, digits, gap, post);
    PhraseIsEom(post);
    hide EomAt, ParseLowered;
    EomFirst(if net then "net" + (gap0 + r) else r, NatOf(digits));
    EomFirst("end of month" + post, 0);
  }

  lemma EomLacksLetters(gap0: string, digits: string, gap: string, post: string)
    requires Blank(gap0) && Blank(gap) && AllDigits(digits) && Lacks(post, "rc/")
    ensures var r := digits + (gap + ("eom" + post));
            Lacks(r, "rc/") && Lacks("net" + (gap0 + r), "rc/") && Lacks("end of month" + post, "rc/")
  {
    var r := digits + (gap + ("eom" + post));
    forall c | c in "rc/" ensures c !in r && c !in "net" + (gap0 + r) && c !in "end of month" + post {
      BlankLacks(gap, c);
      BlankLacks(gap0, c);
      DigitsLack(digits, c);
      hide AllDigits, Blank;
      SumLacks("eom", post, c);
      SumLacks(gap, "eom" + post, c);
      SumLacks(digits, gap + ("eom" + post), c);
      SumLacks(gap0, r, c);
      SumLacks("net", gap0 + r, c);
      SumLacks("end of month", post, c);
    }
  }

  lemma EomFirst(s: string, extra: nat)
    requires EomAt(s, 0) == Some(EndOfMonth(extra)) && Lacks(s, "rc/")
    ensures ParseLowered(s) == EndOfMonth(extra)
  {
    assert "rc/"[0] == 'r' && "rc/"[1] == 'c' && "rc/"[2] == '/';
    hide DueAt, CodAt, DiscountAt, EomAt, NetAt;
    DueNeedsR(s);
    CodNeedsC(s);
    DiscountNeedsSlash(s);
    assert Search(EomAt, s, 0) == Some(EndOfMonth(extra));
  }

  lemma PhraseIsEom(post: string)
    ensures EomAt("end of month" + post, 0) == Some(EndOfMonth(0))
  {
    hide Skip, SkipSpaces;
    var s := "end of month" + post;
    assert s[0..] == s && s[0] == 'e' && s[1] == 'n';
    NothingToSkip("net", s);
    NoSpacesToSkip(s);
    SkipOf("end of month", post);
    NotEom(s);
  }

  lemma NotEom(s: string)
    requires |s| >= 2 && s[0] == 'e' && s[1] == 'n'
    ensures Skip("eom", s).None?
  {
    if |s| >= 3 { assert s[..3][1] == s[1]; }
  }

  // Discounts.

  lemma DiscountTailSpelled(gap1: string, gap2: string, d: string, gap3: string, comma: string, gap4: string, word: string,
                            gap5: string, n: string, post: string)
    requires Blank(gap1) && Blank(gap2) && Blank(gap3) && Blank(gap4) && Blank(gap5)
    requires d != "" && AllDigits(d) && n != "" && AllDigits(n) && (post == "" || !IsDigit(post[0]))
    requires comma in {"", ","} && word in {"net", "n"}
    ensures DiscountTail(gap1 + ("/" + (gap2 + (d + (gap3 + (comma + (gap4 + (word + (gap5 + (n + post)))))))))) == Some((d, n))
  {
    hide Skip, SkipSpaces, SkipOptional, Digits;
    var s5 := gap5 + (n + post);
    var s4 := word + s5;
    var s3 := comma + (gap4 + s4);
    var s2 := d + (gap3 + s3);
    GapBefore(gap1, "/" + (gap2 + s2));
    SkipOf("/", gap2 + s2);
    GapBefore(gap2, s2);
    NotDigitNext(gap3, s3, comma, gap4, s4);
    DigitsOf(d, gap3 + s3);
    CommaSkipped(gap3, comma, gap4, s4);
    SkipOf(word, s5);
    if word == "n" { NotNet(s5, gap5, n, post); }
    GapBefore(gap5, n + post);
    DigitsOf(n, post);
  }

  lemma NotDigitNext(gap3: string, s3: string, comma: string, gap4: string, s4: string)
    requires Blank(gap3) && Blank(gap4) && comma in {"", ","} && s3 == comma + (gap4 + s4) && s4 != "" && s4[0] == 'n'
    ensures gap3 + s3 != "" && !IsDigit((gap3 + s3)[0])
  {
  }

  lemma CommaSkipped(gap3: string, comma: string, gap4: string, s4: string)
    requires Blank(gap3) && Blank(gap4) && comma in {"", ","} && s4 != "" && s4[0] == 'n'
    ensures SkipSpaces(SkipOptional(",", SkipSpaces(gap3 + (comma + (gap4 + s4))))) == s4
  {
    hide SkipSpaces, Skip;
    GapBefore(gap4, s4);
    if comma == "" {
      var both := gap3 + gap4;
      assert gap3 + (comma + (gap4 + s4)) == both + s4;
      GapBefore(both, s4);
      NothingToSkip(",", s4);
      NoSpacesToSkip(s4);
    } else {
      GapBefore(gap3, comma + (gap4 + s4));
      SkipOf(",", gap4 + s4);
    }
  }

  lemma FractionSpelled(fraction: string, rest: string)
    requires AllDigits(fraction) && rest != "" && rest[0] != '.' && !IsDigit(rest[0])
    ensures Fraction(Point(fraction) + rest) == (fraction, rest)
    ensures Point(fraction) + rest != "" && !IsDigit((Point(fraction) + rest)[0])
  {
    if fraction == "" {
      assert "" + rest == rest;
      NothingToSkip(".", rest);
    } else {
      assert "." + fraction + rest == "." + (fraction + rest);
      SkipOf(".", fraction + rest);
      DigitsOf(fraction, rest);
    }
  }

  /** Percent, slash, discount days, an optional comma, `net` or `n`, and the net days, with any white space or none
      between them, at the start of a text that says neither due on receipt nor cash on delivery. */
  lemma DiscountSpellings(whole: string, fraction: string, gap1: string, gap2: string, d: string, gap3: string, comma: string,
                          gap4: string, word: string, gap5: string, n: string, post: string)
    requires whole != "" && AllDigits(whole) && AllDigits(fraction)
    requires Blank(gap1) && Blank(gap2) && Blank(gap3) && Blank(gap4) && Blank(gap5)
    requires d != "" && AllDigits(d) && n != "" && AllDigits(n) && (post == "" || !IsDigit(post[0]))
    requires comma in {"", ","} && word in {"net", "n"}
    ensures var netDays := gap4 + (word + (gap5 + (n + post)));
            var s := whole + (Point(fraction) + (gap1 + ("/" + (gap2 + (d + (gap3 + (comma + netDays)))))));
            Search(DueAt, s, 0).None? && Search(CodAt, s, 0).None? ==>
              ParseLowered(s) == Discount(NatOf(whole) as real + FractionOf(fraction), NatOf(d), NatOf(n))
  {
    hide DiscountTail, Digits, Fraction, Point, DueAt, CodAt, EomAt, NetAt, NatOf, FractionOf;
    var tail := gap1 + ("/" + (gap2 + (d + (gap3 + (comma + (gap4 + (word + (gap5 + (n + post)))))))));
    DiscountTailSpelled(gap1, gap2, d, gap3, comma, gap4, word, gap5, n, post);
    assert tail != "" && (tail[0] == '/' || IsSpace(tail[0]));
    FractionSpelled(fraction, tail);
    DigitsOf(whole, Point(fraction) + tail);
    var s := whole + (Point(fraction) + tail);
    FromStart(s);
    assert DiscountAt(s, 0) == Some(Discount(NatOf(whole) as real + FractionOf(fraction), NatOf(d), NatOf(n)));
    hide DiscountAt;
    assert Search(DiscountAt, s, 0) == Some(Discount(NatOf(whole) as real + FractionOf(fraction), NatOf(d), NatOf(n)));
  }

  // Terms are words of their own.

  /** Net days, letters for cash on delivery and `eom` inside a longer word are no terms. */
  lemma TermsAreWords(s: string, i: nat)
    requires 0 < i <= |s| && IsWord(s[i - 1]) && StartsWord(s[i..])
    ensures NetAt(s, i).None?
    ensures CodAt(s, i).Some? ==> Skip("cash on delivery", s[i..]).Some?
    ensures EomAt(s, i).Some? ==> Skip("end of month", s[i..]).Some?
  {
    hide Skip, SkipSpaces, Digits, CodLetters;
  }

  /** Days that run on into a word are none either. */
  lemma DaysEndWord(digits: string, post: string)
    requires digits != "" && AllDigits(digits) && post != "" && IsWord(post[0]) && !IsDigit(post[0])
    ensures NetAt("net" + (" " + (digits + post)), 0).None?
  {
    hide Skip, SkipSpaces, Digits;
    var s := "net" + (" " + (digits + post));
    assert s[0..] == s;
    SkipOf("net", " " + (digits + post));
    OneSpaceToSkip(digits + post);
    DigitsOf(digits, post);
  }

  /** And neither are the letters of cash on delivery and `eom` at the beginning of a longer word. */
  lemma LettersEndWord(post: string)
    requires StartsWord(post)
    ensures !CodLetters("cod" + post) && EomAt("eom" + post, 0).None?
  {
    hide Skip, SkipSpaces, Digits;
    var od, d := "od" + post, "d" + post;
    assert "cod" + post == "c" + od && od == "o" + d;
    SkipOf("c", od);
    NothingToSkip(".", od);
    SkipOf("o", d);
    NothingToSkip(".", d);
    SkipOf("d", post);
    var s := "eom" + post;
    FromStart(s);
    NothingToSkip("net", s);
    NoDigits(s);
    NoSpacesToSkip(s);
    SkipOf("eom", post);
    NotPhrase(s);
  }

  lemma NoDigits(s: string)
    requires s != "" && !IsDigit(s[0])
    ensures Digits(s).None?
  {
  }

  lemma NotPhrase(s: string)
    requires |s| >= 2 && s[1] == 'o'
    ensures Skip("end of month", s).None?
  {
    if |s| >= 12 { assert s[..12][1] == s[1]; }
  }
}
