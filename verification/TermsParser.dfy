/** Recognising payment terms (`payment_terms.py`, its five regular expressions and their branch order).
    Matching is case-insensitive, so it is done on the stripped text in lower case. */
module TermsParser {
  import opened JsonValues
  import opened Text

  datatype Terms =
    | DueOnReceipt
    | CashOnDelivery
    | Discount(percent: real, discountDays: nat, netDays: nat)
    | EndOfMonth(extra: nat)
    | Net(days: nat)
    | Unknown

  predicate AllDigits(s: string) {
    forall i | 0 <= i < |s| :: IsDigit(s[i])
  }

  /** `int` of a string of digits. */
  function NatOf(s: string): nat
    requires AllDigits(s)
  {
    if s == "" then 0 else 10 * NatOf(s[..|s| - 1]) + (s[|s| - 1] as int - '0' as int)
  }

  /** The value of the digits behind a decimal point. */
  function FractionOf(s: string): real
    requires AllDigits(s)
  {
    if s == "" then 0.0 else ((s[0] as int - '0' as int) as real + FractionOf(s[1..])) / 10.0
  }

  function DigitRun(s: string): (n: nat)
    ensures n <= |s| && AllDigits(s[..n])
    ensures n < |s| ==> !IsDigit(s[n])
  {
    if s != "" && IsDigit(s[0]) then
      var n := DigitRun(s[1..]);
      assert s[..n + 1] == [s[0]] + s[1..][..n];
      n + 1
    else 0
  }

  /** All characters of `part` occur in `s`. */
  ghost predicate Within(part: string, s: string) {
    forall c | c in part :: c in s
  }

  /** The digits matched by `\d+`, and what follows them. */
  function Digits(s: string): (r: Option<(string, string)>)
    ensures r.Some? ==> s == r.value.0 + r.value.1 && r.value.0 != "" && AllDigits(r.value.0)
  {
    var n := DigitRun(s);
    if n == 0 then None else Some((s[..n], s[n..]))
  }

  /** What follows `\s*`. */
  function SkipSpaces(s: string): (r: string)
    ensures Within(r, s)
  {
    s[LeadingSpaces(s)..]
  }

  /** What follows the literal `word`. */
  function Skip(word: string, s: string): (r: Option<string>)
    ensures r.Some? ==> s == word + r.value
  {
    if |word| <= |s| && s[..|word|] == word then Some(s[|word|..]) else None
  }

  /** What follows the literal `word` if it is there. */
  function SkipOptional(word: string, s: string): (r: string)
    ensures Within(r, s)
  {
    var rest := Skip(word, s);
    if rest.Some? then rest.value else s
  }

  predicate StartsWord(s: string) {
    s != "" && IsWord(s[0])
  }

  /** `\b` at position `i`. */
  predicate Boundary(s: string, i: nat)
    requires i <= |s|
  {
    (i > 0 && IsWord(s[i - 1])) != StartsWord(s[i..])
  }

  /** `due\s*(?:on|upon)?\s*receipt` */
  predicate DueReceipt(r: string) {
    var due := Skip("due", r);
    due.Some? &&
    var gap := SkipSpaces(due.value);
    var on := Skip("on", gap);
    var rest := if on.Some? then on.value else SkipOptional("upon", gap);
    Skip("receipt", SkipSpaces(rest)).Some?
  }

  function DueAt(s: string, i: nat): Option<Terms> {
    if i <= |s| && (DueReceipt(s[i..]) || (i == 0 && s == "dor") || Skip("payable on receipt", s[i..]).Some?)
    then Some(DueOnReceipt) else None
  }

  /** `c\.?o\.?d\.?\b`: before a final dot there is a boundary already. */
  predicate CodLetters(r: string) {
    var c := Skip("c", r);
    c.Some? &&
    var o := Skip("o", SkipOptional(".", c.value));
    o.Some? &&
    var d := Skip("d", SkipOptional(".", o.value));
    d.Some? && !StartsWord(d.value)
  }

  function CodAt(s: string, i: nat): Option<Terms> {
    if i <= |s| && ((Boundary(s, i) && CodLetters(s[i..])) || Skip("cash on delivery", s[i..]).Some?)
    then Some(CashOnDelivery) else None
  }

  /** `(?:net|n)` */
  function SkipNet(s: string): Option<string> {
    var net := Skip("net", s);
    if net.Some? then net else Skip("n", s)
  }

  /** `(?:\.\d+)?` */
  function Fraction(s: string): (r: (string, string))
    ensures AllDigits(r.0)
  {
    var point := Skip(".", s);
    var digits := if point.Some? then Digits(point.value) else None;
    if digits.Some? then digits.value else ("", s)
  }

  // `\s*/\s*(\d+)\s*,?\s*(?:net|n)\s*(\d+)`
  function DiscountTail(s: string): (r: Option<(string, string)>)
    ensures r.Some? ==> AllDigits(r.value.0) && AllDigits(r.value.1)
  {
    var slash := Skip("/", SkipSpaces(s));
    if slash.None? then None
    else
      var days := Digits(SkipSpaces(slash.value));
      if days.None? then None
      else
        var net := SkipNet(SkipSpaces(SkipOptional(",", SkipSpaces(days.value.1))));
        var netDays := if net.Some? then Digits(SkipSpaces(net.value)) else None;
        if netDays.None? then None else Some((days.value.0, netDays.value.0))
  }

  function DiscountAt(s: string, i: nat): Option<Terms> {
    var whole := if i <= |s| then Digits(s[i..]) else None;
    if whole.None? then None
    else
      var (fraction, rest) := Fraction(whole.value.1);
      var tail := DiscountTail(rest);
      if tail.None? then None
      else Some(Discount(NatOf(whole.value.0) as real + FractionOf(fraction), NatOf(tail.value.0), NatOf(tail.value.1)))
  }

  /** `\b(?:net\s*)?(\d+)?\s*eom\b|end of month` */
  function EomAt(s: string, i: nat): Option<Terms> {
    if i > |s| then None
    else
      var net := Skip("net", s[i..]);
      var r := if net.Some? then SkipSpaces(net.value) else s[i..];
      var digits := Digits(r);
      var eom := Skip("eom", SkipSpaces(if digits.Some? then digits.value.1 else r));
      if Boundary(s, i) && eom.Some? && !StartsWord(eom.value) then
        Some(EndOfMonth(if digits.Some? then NatOf(digits.value.0) else 0))
      else if Skip("end of month", s[i..]).Some? then Some(EndOfMonth(0))
      else None
  }

  /** `\b(?:net|n)\s*(\d+)\b` */
  function NetAt(s: string, i: nat): Option<Terms> {
    var net := if i <= |s| && Boundary(s, i) then SkipNet(s[i..]) else None;
    var digits := if net.Some? then Digits(SkipSpaces(net.value)) else None;
    if digits.Some? && !StartsWord(digits.value.1) then Some(Net(NatOf(digits.value.0))) else None
  }

  type Recogniser = (string, nat) -> Option<Terms>

  /** `re.search`: the leftmost match at or after `i`. */
  function Search(at: Recogniser, s: string, i: nat): Option<Terms>
    requires i <= |s|
    decreases |s| - i
  {
    if at(s, i).Some? then at(s, i) else if i < |s| then Search(at, s, i + 1) else None
  }

  function ParseLowered(s: string): Terms {
    var due := Search(DueAt, s, 0);
    var cod := Search(CodAt, s, 0);
    var discount := Search(DiscountAt, s, 0);
    var eom := Search(EomAt, s, 0);
    var net := Search(NetAt, s, 0);
    if due.Some? then due.value
    else if cod.Some? then cod.value
    else if discount.Some? then discount.value
    else if eom.Some? then eom.value
    else if net.Some? then net.value
    else Unknown
  }

  function Parse(terms: string): Terms {
    ParseLowered(Lower(Strip(terms)))
  }

  // Letters without which an expression cannot match.

  lemma {:induction false} SearchFails(at: Recogniser, s: string, i: nat)
    requires i <= |s| && forall k | i <= k <= |s| :: at(s, k).None?
    ensures Search(at, s, i).None?
    decreases |s| - i
  {
    if i < |s| { SearchFails(at, s, i + 1); }
  }

  lemma SkipFails(word: string, s: string, k: nat)
    requires k < |word| && word[k] !in s
    ensures Skip(word, s).None?
  {
    if |word| <= |s| { assert s[..|word|][k] == s[k]; }
  }

  lemma RestLacks(word: string, s: string, c: char)
    requires c !in s
    ensures Skip(word, s).Some? ==> c !in Skip(word, s).value
  {
  }

  lemma DueReceiptNeedsR(r: string)
    requires 'r' !in r
    ensures !DueReceipt(r)
  {
    hide Skip, SkipOptional, SkipSpaces;
    RestLacks("due", r, 'r');
    var due := Skip("due", r);
    if due.Some? {
      var gap := SkipSpaces(due.value);
      assert 'r' !in gap;
      RestLacks("on", gap, 'r');
      var on := Skip("on", gap);
      var rest := if on.Some? then on.value else SkipOptional("upon", gap);
      assert 'r' !in rest;
      assert 'r' !in SkipSpaces(rest);
      SkipFails("receipt", SkipSpaces(rest), 0);
    }
  }

  lemma DueNeedsR(s: string)
    requires 'r' !in s
    ensures Search(DueAt, s, 0).None?
  {
    hide Skip, DueReceipt;
    forall i | 0 <= i <= |s| ensures DueAt(s, i).None? {
      assert 'r' !in s[i..];
      SkipFails("payable on receipt", s[i..], 11);
      DueReceiptNeedsR(s[i..]);
      assert "dor"[2] in "dor";
    }
    SearchFails(DueAt, s, 0);
  }

  lemma CodNeedsC(s: string)
    requires 'c' !in s
    ensures Search(CodAt, s, 0).None?
  {
    hide Skip;
    forall i | 0 <= i <= |s| ensures CodAt(s, i).None? {
      assert 'c' !in s[i..];
      SkipFails("cash on delivery", s[i..], 0);
      SkipFails("c", s[i..], 0);
    }
    SearchFails(CodAt, s, 0);
  }

  lemma DigitsRestLacks(s: string, c: char)
    requires c !in s
    ensures Digits(s).Some? ==> c !in Digits(s).value.1
  {
    if Digits(s).Some? {
      var (digits, rest) := Digits(s).value;
      assert forall k | 0 <= k < |rest| :: rest[k] == s[|digits| + k];
    }
  }

  lemma FractionRestLacks(s: string, c: char)
    requires c !in s
    ensures c !in Fraction(s).1
  {
    hide Digits, Skip;
    RestLacks(".", s, c);
    if Skip(".", s).Some? { DigitsRestLacks(Skip(".", s).value, c); }
  }

  lemma DiscountNeedsSlash(s: string)
    requires '/' !in s
    ensures Search(DiscountAt, s, 0).None?
  {
    hide Skip, Fraction, Digits, NatOf, FractionOf, SkipSpaces, SkipNet, SkipOptional;
    forall i | 0 <= i <= |s| ensures DiscountAt(s, i).None? {
      var r := s[i..];
      assert '/' !in r;
      DigitsRestLacks(r, '/');
      if Digits(r).Some? {
        var rest := Fraction(Digits(r).value.1).1;
        FractionRestLacks(Digits(r).value.1, '/');
        assert '/' !in SkipSpaces(rest);
        SkipFails("/", SkipSpaces(rest), 0);
      }
    }
    SearchFails(DiscountAt, s, 0);
  }

  lemma EomAtNeedsM(s: string, i: nat)
    requires 'm' !in s && i <= |s|
    ensures EomAt(s, i).None?
  {
    hide Skip, Digits, NatOf, SkipSpaces;
    var start := s[i..];
    assert 'm' !in start;
    RestLacks("net", start, 'm');
    var net := Skip("net", start);
    var r := if net.Some? then SkipSpaces(net.value) else start;
    assert 'm' !in r;
    DigitsRestLacks(r, 'm');
    var digits := Digits(r);
    var rest := if digits.Some? then digits.value.1 else r;
    assert 'm' !in SkipSpaces(rest);
    SkipFails("eom", SkipSpaces(rest), 2);
    SkipFails("end of month", start, 7);
  }

  lemma EomNeedsM(s: string)
    requires 'm' !in s
    ensures Search(EomAt, s, 0).None?
  {
    forall i | 0 <= i <= |s| ensures EomAt(s, i).None? { EomAtNeedsM(s, i); }
    SearchFails(EomAt, s, 0);
  }

  // Printing terms, and reading them back.

  /** The decimal digits of `n`. */
  function Show(n: nat): (s: string)
    ensures s != "" && AllDigits(s) && NatOf(s) == n
  {
    var last := ['0' + (n % 10) as char];
    if n < 10 then last else
      var front := Show(n / 10);
      assert (front + last)[..|front|] == front;
      front + last
  }

  datatype Printable =
    | PrintDue
    | PrintCod
    | PrintDiscount(whole: nat, fraction: string, discountDays: nat, netDays: nat)
    | PrintEom(days: nat)
    | PrintNet(days: nat)

  function Point(fraction: string): string {
    if fraction == "" then "" else "." + fraction
  }

  function Print(p: Printable): string {
    match p
    case PrintDue => "Due on Receipt"
    case PrintCod => "COD"
    case PrintDiscount(whole, fraction, d, n) => Show(whole) + (Point(fraction) + ("/" + (Show(d) + (" Net " + Show(n)))))
    case PrintEom(n) => "Net " + (Show(n) + " EOM")
    case PrintNet(n) => "Net " + Show(n)
  }

  predicate Printing(p: Printable) {
    p.PrintDiscount? ==> AllDigits(p.fraction)
  }

  function Meaning(p: Printable): Terms
    requires Printing(p)
  {
    match p
    case PrintDue => DueOnReceipt
    case PrintCod => CashOnDelivery
    case PrintDiscount(whole, fraction, d, n) => Discount(whole as real + FractionOf(fraction), d, n)
    case PrintEom(n) => EndOfMonth(n)
    case PrintNet(n) => Net(n)
  }

  lemma LowerOfSum(a: string, b: string)
    ensures Lower(a + b) == Lower(a) + Lower(b)
  {
  }

  lemma LowerOfDigits(s: string)
    requires AllDigits(s)
    ensures Lower(s) == s
  {
  }

  lemma {:induction false} DigitRunOf(digits: string, rest: string)
    requires AllDigits(digits) && (rest == "" || !IsDigit(rest[0]))
    ensures DigitRun(digits + rest) == |digits|
  {
    if digits != "" {
      assert (digits + rest)[1..] == digits[1..] + rest;
      DigitRunOf(digits[1..], rest);
    }
  }

  lemma DigitsOf(digits: string, rest: string)
    requires digits != "" && AllDigits(digits) && (rest == "" || !IsDigit(rest[0]))
    ensures Digits(digits + rest) == Some((digits, rest))
  {
    DigitRunOf(digits, rest);
  }

  lemma SkipOf(word: string, rest: string)
    ensures Skip(word, word + rest) == Some(rest)
  {
  }

  lemma NoSpacesToSkip(s: string)
    requires s == "" || !IsSpace(s[0])
    ensures SkipSpaces(s) == s
  {
  }

  lemma OneSpaceToSkip(s: string)
    requires s == "" || !IsSpace(s[0])
    ensures SkipSpaces(" " + s) == s
  {
    assert (" " + s)[1..] == s;
    NoSpacesToSkip(s);
  }

  lemma NothingToSkip(word: string, s: string)
    requires word != "" && (s == "" || s[0] != word[0])
    ensures Skip(word, s).None? && SkipOptional(word, s) == s
  {
    if |word| <= |s| { assert s[..|word|][0] == s[0]; }
  }

  lemma NetAtStart(digits: string)
    requires digits != "" && AllDigits(digits)
    ensures NetAt("net " + digits, 0) == Some(Net(NatOf(digits)))
  {
    var s := "net " + digits;
    assert s == "net" + (" " + digits) && s[0..] == s;
    SkipOf("net", " " + digits);
    OneSpaceToSkip(digits);
    assert digits == digits + "";
    DigitsOf(digits, "");
  }

  lemma EomAtStart(digits: string)
    requires digits != "" && AllDigits(digits)
    ensures EomAt("net " + (digits + " eom"), 0) == Some(EndOfMonth(NatOf(digits)))
  {
    hide Skip, SkipSpaces, Digits, NatOf;
    var rest := digits + " eom";
    var s := "net " + rest;
    assert s == "net" + (" " + rest) && s[0..] == s;
    SkipOf("net", " " + rest);
    OneSpaceToSkip(rest);
    DigitsOf(digits, " eom");
    assert " eom" == " " + "eom";
    OneSpaceToSkip("eom");
    assert "eom" == "eom" + "";
    SkipOf("eom", "");
  }

  lemma FractionAtStart(fraction: string, rest: string)
    requires AllDigits(fraction) && rest != "" && rest[0] == '/'
    ensures Fraction(Point(fraction) + rest) == (fraction, rest)
  {
    if fraction == "" {
      assert "" + rest == rest;
      NothingToSkip(".", rest);
    } else {
      assert "." + fraction + rest == "." + (fraction + rest);
      SkipOf(".", fraction + rest);
      DigitsOf(fraction, rest);
    }
  }

  lemma DiscountTailOf(d: string, n: string)
    requires d != "" && AllDigits(d) && n != "" && AllDigits(n)
    ensures DiscountTail("/" + (d + (" net " + n))) == Some((d, n))
  {
    hide Skip, SkipSpaces, SkipOptional, Digits;
    var afterGap := "net" + (" " + n);
    var afterDays := " " + afterGap;
    assert " net " + n == afterDays;
    NoSpacesToSkip("/" + (d + afterDays));
    SkipOf("/", d + afterDays);
    NoSpacesToSkip(d + afterDays);
    DigitsOf(d, afterDays);
    OneSpaceToSkip(afterGap);
    NothingToSkip(",", afterGap);
    NoSpacesToSkip(afterGap);
    SkipOf("net", " " + n);
    OneSpaceToSkip(n);
    assert n == n + "";
    DigitsOf(n, "");
  }

  lemma DiscountAtStart(whole: string, fraction: string, d: string, n: string)
    requires whole != "" && AllDigits(whole) && AllDigits(fraction)
    requires d != "" && AllDigits(d) && n != "" && AllDigits(n)
    ensures DiscountAt(whole + (Point(fraction) + ("/" + (d + (" net " + n)))), 0) ==
            Some(Discount(NatOf(whole) as real + FractionOf(fraction), NatOf(d), NatOf(n)))
  {
    hide Skip, SkipSpaces, DiscountTail, Digits, Fraction, NatOf, FractionOf, Point;
    DiscountTailOf(d, n);
    var tail := "/" + (d + (" net " + n));
    FractionAtStart(fraction, tail);
    var rest := Point(fraction) + tail;
    PointFirst(fraction, tail);
    DigitsOf(whole, rest);
    FromStart(whole + rest);
  }

  lemma PointFirst(fraction: string, tail: string)
    requires tail != "" && tail[0] == '/'
    ensures Point(fraction) + tail != "" && !IsDigit((Point(fraction) + tail)[0])
  {
  }

  lemma FromStart(s: string)
    ensures s[0..] == s
  {
  }

  lemma LowerOfPart(part: string, lowered: string, rest: string, loweredRest: string)
    requires Lower(part) == lowered && Lower(rest) == loweredRest
    ensures Lower(part + rest) == lowered + loweredRest
  {
    LowerOfSum(part, rest);
  }

  lemma SumLacks(a: string, b: string, c: char)
    requires c !in a && c !in b
    ensures c !in a + b
  {
  }

  lemma DigitsLack(s: string, c: char)
    requires AllDigits(s) && !IsDigit(c)
    ensures c !in s
  {
  }

  lemma DueComesFirst(s: string)
    requires DueAt(s, 0) == Some(DueOnReceipt)
    ensures ParseLowered(s) == DueOnReceipt
  {
    hide DueAt, CodAt, DiscountAt, EomAt, NetAt;
    assert Search(DueAt, s, 0) == Some(DueOnReceipt);
  }

  lemma PrintedDue()
    ensures Parse(Print(PrintDue)) == DueOnReceipt
  {
    assert Lower("Due on Receipt") == "due on receipt";
    hide Lower, ParseLowered;
    DueOnReceiptMatches();
    DueComesFirst("due on receipt");
    TrimmedIsStripped("Due on Receipt");
  }

  lemma TrimmedIsStripped(s: string)
    requires Trimmed(s)
    ensures Strip(s) == s
  {
  }

  lemma DueOnReceiptMatches()
    ensures DueAt("due on receipt", 0) == Some(DueOnReceipt)
  {
    hide Skip, SkipSpaces, SkipOptional;
    var s := "due on receipt";
    assert s[0..] == s && s == "due" + " on receipt";
    SkipOf("due", " on receipt");
    assert " on receipt" == " " + "on receipt";
    OneSpaceToSkip("on receipt");
    assert "on receipt" == "on" + " receipt";
    SkipOf("on", " receipt");
    assert " receipt" == " " + "receipt" && "receipt" == "receipt" + "";
    OneSpaceToSkip("receipt");
    SkipOf("receipt", "");
  }

  lemma PrintedCod()
    ensures Parse(Print(PrintCod)) == CashOnDelivery
  {
    var s := Lower("COD");
    assert s == "cod";
    DueNeedsR(s);
    assert s[0..] == "c" + "od" && "od" == "o" + "d" && "d" == "d" + "";
    SkipOf("c", "od");
    NothingToSkip(".", "od");
    SkipOf("o", "d");
    NothingToSkip(".", "d");
    SkipOf("d", "");
    hide Skip, SkipSpaces, SkipOptional, DueAt, DiscountAt, EomAt, NetAt, Lower;
    assert CodAt(s, 0) == Some(CashOnDelivery);
  }

  lemma NetLacks(digits: string, c: char)
    requires AllDigits(digits) && c in {'r', 'c', '/', 'm'}
    ensures c !in "net " + digits
  {
    DigitsLack(digits, c);
    SumLacks("net ", digits, c);
  }

  /** The text in lower case decides, since printed terms have no white space around them. */
  lemma ParseByLowered(text: string, s: string)
    requires Trimmed(text) && Lower(text) == s
    ensures Parse(text) == ParseLowered(s)
  {
    TrimmedIsStripped(text);
    hide ParseLowered, Strip, Lower;
  }

  lemma PrintedNet(digits: string)
    requires digits != "" && AllDigits(digits)
    ensures Parse("Net " + digits) == Net(NatOf(digits))
  {
    var s := "net " + digits;
    LowerOfDigits(digits);
    assert Lower("Net ") == "net ";
    LowerOfPart("Net ", "net ", digits, digits);
    ParseByLowered("Net " + digits, s);
    NetLacks(digits, 'r');
    NetLacks(digits, 'c');
    NetLacks(digits, '/');
    NetLacks(digits, 'm');
    hide Parse, DueAt, CodAt, DiscountAt, EomAt, NetAt, Lower, Strip;
    DueNeedsR(s);
    CodNeedsC(s);
    DiscountNeedsSlash(s);
    EomNeedsM(s);
    NetAtStart(digits);
  }

  lemma PrintedEom(digits: string)
    requires digits != "" && AllDigits(digits)
    ensures Parse("Net " + (digits + " EOM")) == EndOfMonth(NatOf(digits))
  {
    var s := "net " + (digits + " eom");
    LowerOfDigits(digits);
    assert Lower("Net ") == "net " && Lower(" EOM") == " eom";
    LowerOfPart(digits, digits, " EOM", " eom");
    LowerOfPart("Net ", "net ", digits + " EOM", digits + " eom");
    ParseByLowered("Net " + (digits + " EOM"), s);
    EomLacks(digits, 'r');
    EomLacks(digits, 'c');
    EomLacks(digits, '/');
    hide Parse, DueAt, CodAt, DiscountAt, EomAt, NetAt, Lower, Strip;
    DueNeedsR(s);
    CodNeedsC(s);
    DiscountNeedsSlash(s);
    EomAtStart(digits);
  }

  lemma EomLacks(digits: string, c: char)
    requires AllDigits(digits) && c in {'r', 'c', '/'}
    ensures c !in "net " + (digits + " eom")
  {
    DigitsLack(digits, c);
    SumLacks(digits, " eom", c);
    SumLacks("net ", digits + " eom", c);
  }

  lemma PrintedDiscount(whole: string, fraction: string, d: string, n: string)
    requires whole != "" && AllDigits(whole) && AllDigits(fraction)
    requires d != "" && AllDigits(d) && n != "" && AllDigits(n)
    ensures Parse(whole + (Point(fraction) + ("/" + (d + (" Net " + n))))) ==
            Discount(NatOf(whole) as real + FractionOf(fraction), NatOf(d), NatOf(n))
  {
    hide Parse, DueAt, CodAt, DiscountAt, EomAt, NetAt, Lower, Strip, FractionOf;
    var s := whole + (Point(fraction) + ("/" + (d + (" net " + n))));
    LoweredDiscount(whole, fraction, d, n);
    DiscountLacks(whole, fraction, d, n, 'r');
    DiscountLacks(whole, fraction, d, n, 'c');
    DueNeedsR(s);
    CodNeedsC(s);
    DiscountAtStart(whole, fraction, d, n);
  }

  lemma DiscountLacks(whole: string, fraction: string, d: string, n: string, c: char)
    requires AllDigits(whole) && AllDigits(fraction) && AllDigits(d) && AllDigits(n) && c in {'r', 'c'}
    ensures c !in whole + (Point(fraction) + ("/" + (d + (" net " + n))))
  {
    DigitsLack(whole, c);
    DigitsLack(fraction, c);
    DigitsLack(d, c);
    DigitsLack(n, c);
    SumLacks(" net ", n, c);
    SumLacks(d, " net " + n, c);
    SumLacks("/", d + (" net " + n), c);
    SumLacks(".", fraction, c);
    assert c !in Point(fraction);
    SumLacks(Point(fraction), "/" + (d + (" net " + n)), c);
    SumLacks(whole, Point(fraction) + ("/" + (d + (" net " + n))), c);
  }

  lemma LoweredDiscount(whole: string, fraction: string, d: string, n: string)
    requires whole != "" && AllDigits(whole) && AllDigits(fraction) && AllDigits(d) && n != "" && AllDigits(n)
    ensures Parse(whole + (Point(fraction) + ("/" + (d + (" Net " + n))))) ==
            ParseLowered(whole + (Point(fraction) + ("/" + (d + (" net " + n)))))
  {
    LowerOfDigits(whole);
    LowerOfDigits(fraction);
    LowerOfDigits(d);
    LowerOfDigits(n);
    assert Lower(".") == "." && Lower("/") == "/" && Lower(" Net ") == " net " && Lower("") == "";
    hide Parse, ParseLowered, Lower;
    LowerOfPart(".", ".", fraction, fraction);
    assert Lower(Point(fraction)) == Point(fraction);
    LowerOfPart(" Net ", " net ", n, n);
    LowerOfPart(d, d, " Net " + n, " net " + n);
    LowerOfPart("/", "/", d + (" Net " + n), d + (" net " + n));
    var tail, lowered := "/" + (d + (" Net " + n)), "/" + (d + (" net " + n));
    assert tail[|tail| - 1] == n[|n| - 1];
    TrimmedSum(whole, Point(fraction), tail);
    LowerOfPart(Point(fraction), Point(fraction), tail, lowered);
    LowerOfPart(whole, whole, Point(fraction) + tail, Point(fraction) + lowered);
    ParseByLowered(whole + (Point(fraction) + tail), whole + (Point(fraction) + lowered));
  }

  lemma TrimmedSum(a: string, b: string, c: string)
    requires a != "" && c != "" && !IsSpace(a[0]) && !IsSpace(c[|c| - 1])
    ensures Trimmed(a + (b + c))
  {
  }

  /** Reading printed terms gives back the term type and exactly the printed numbers. */
  lemma ParserUndoesPrinter(p: Printable)
    requires Printing(p)
    ensures Parse(Print(p)) == Meaning(p)
  {
    hide Parse;
    match p
    case PrintDue => PrintedDue();
    case PrintCod => PrintedCod();
    case PrintDiscount(whole, fraction, d, n) => PrintedDiscount(Show(whole), fraction, Show(d), Show(n));
    case PrintEom(n) => PrintedEom(Show(n));
    case PrintNet(n) => PrintedNet(Show(n));
  }

  function Power(n: nat): (p: real)
    ensures p > 0.0
  {
    if n == 0 then 1.0 else 10.0 * Power(n - 1)
  }

  /** The value `x`, counted in units of `unit`. */
  function Scaled(x: real, unit: real): real {
    x * unit
  }

  lemma {:induction false} NatOfFirst(s: string)
    requires AllDigits(s) && s != ""
    ensures NatOf(s) as real == Scaled((s[0] as int - '0' as int) as real, Power(|s| - 1)) + NatOf(s[1..]) as real
  {
    if |s| == 1 {
      assert s[1..] == "" && s[..0] == "";
    } else {
      var front := s[..|s| - 1];
      NatOfFirst(front);
      assert s[1..][..|s| - 2] == front[1..];
      hide Scaled;
      TenTimes((s[0] as int - '0' as int) as real, Power(|s| - 2));
    }
  }

  lemma TenTimes(d: real, p: real)
    ensures 10.0 * Scaled(d, p) == Scaled(d, 10.0 * p)
  {
  }

  lemma TenthScaled(d: real, f: real, p: real)
    ensures Scaled((d + f) / 10.0, 10.0 * p) == Scaled(d, p) + Scaled(f, p)
  {
    assert (d + f) / 10.0 * (10.0 * p) == (d + f) * p;
  }

  /** The digits behind the point count as the decimal fraction they write: so many tenths, hundredths, and so on. */
  lemma {:induction false} FractionIsDecimal(s: string)
    requires AllDigits(s)
    ensures Scaled(FractionOf(s), Power(|s|)) == NatOf(s) as real
  {
    if s != "" {
      FractionIsDecimal(s[1..]);
      NatOfFirst(s);
      hide Scaled, NatOf;
      TenthScaled((s[0] as int - '0' as int) as real, FractionOf(s[1..]), Power(|s| - 1));
    }
  }
}
