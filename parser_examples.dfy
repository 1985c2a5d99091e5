/**
 * The shipped catalog on the inputs its upstream order form produces: codes
 * in any letter case, display names with odd spacing or a price appended, a
 * truncated name, and lists with two codes or a repeated service.
 */
module ParserExamples {
  import opened Wrappers
  import opened Text
  import opened Catalog
  import opened Failures
  import opened SkuParser

  /** No string of a length other than 5, 6 or 7 is a shipped code. */
  lemma {:induction false} NotShippedCode(u: string)
    requires |u| < 5 || |u| > 7
    ensures u !in Shipped.prices
  {
    ShippedCatalog();
  }

  /** A code typed in lower case is an exact match. */
  lemma {:induction false} LowerCaseCode(token: string)
    requires token == "intfmt"
    ensures Resolve(Shipped, token) == Some("INTFMT")
  {
    var u := ToUpper(token);
    assert u[0] == 'I' && u[1] == 'N' && u[2] == 'T' && u[3] == 'F' && u[4] == 'M' && u[5] == 'T';
    assert u == "INTFMT";
  }

  /** A token that cannot be an exact code resolves through the first
      shipped rule its normal form starts with. */
  lemma {:induction false} ShippedFuzzyMatch(token: string, i: nat)
    requires |token| < 5 || |token| > 7
    requires i < |Shipped.rules| && IsFirstMatch(Shipped.rules, Normalize(token), i)
    ensures Resolve(Shipped, token) == Some(Shipped.rules[i].code)
  {
    NotShippedCode(ToUpper(token));
    ResolvePrecedence(Shipped, token);
  }

  /** Any normal form that starts with "cover design" picks the second
      shipped rule. */
  lemma {:induction false} CoverRule(n: string)
    requires "cover design" <= n
    ensures IsFirstMatch(Shipped.rules, n, 1) && Shipped.rules[1].code == "COVER"
  {
    assert n[0] == 'c';
  }

  lemma {:induction false} DisplayNameIsNormal(token: string)
    requires token == "cover design"
    ensures Normalize(token) == token
  {
    assert forall i :: 0 <= i < |token| && IsSpace(token[i]) ==> i == 5;
    assert forall i :: 0 <= i < |token| ==> !('A' <= token[i] <= 'Z');
    NormalFormIsFixed(token);
  }

  /** The display name itself matches its fuzzy rule. */
  lemma {:induction false} DisplayName(token: string)
    requires token == "cover design"
    ensures Resolve(Shipped, token) == Some("COVER")
  {
    DisplayNameIsNormal(token);
    CoverRule(token);
    ShippedFuzzyMatch(token, 1);
  }

  /** Two words that differ only in the case of their initials agree once
      upper-cased. */
  lemma {:induction false} SameUpper(x: char, x': char, mid: string, y: char, y': char, rest: string)
    requires UpperChar(x) == UpperChar(x') && UpperChar(y) == UpperChar(y')
    ensures ToUpper([x] + mid + [y] + rest) == ToUpper([x'] + mid + [y'] + rest)
  {
    ToUpperAppend([x] + mid + [y], rest);
    ToUpperAppend([x'] + mid + [y'], rest);
    ToUpperAppend([x] + mid, [y]);
    ToUpperAppend([x'] + mid, [y']);
    ToUpperAppend([x], mid);
    ToUpperAppend([x'], mid);
  }

  lemma {:induction false} CapitalizedName()
    ensures ToUpper("Cover Design") == ToUpper("cover design")
  {
    assert "Cover Design" == ['C'] + "over " + ['D'] + "esign";
    assert "cover design" == ['c'] + "over " + ['d'] + "esign";
    SameUpper('C', 'c', "over ", 'D', 'd', "esign");
  }

  lemma {:induction false} CapitalizedNormal(name: string)
    requires name == "Cover Design"
    ensures Normalize(name) == "cover design"
  {
    CapitalizedName();
    NormalizeIgnoresCase(name);
    NormalizeIgnoresCase("cover design");
    DisplayNameIsNormal("cover design");
  }

  /** Letter case in a display name does not matter. */
  lemma {:induction false} DisplayNameCapitalized(token: string)
    requires token == "Cover Design"
    ensures Resolve(Shipped, token) == Some("COVER")
  {
    var lower := "cover design";
    CapitalizedName();
    ResolveIgnoresCase(Shipped, token, lower);
    DisplayName(lower);
  }

  /** A run of spaces inside a display name counts as one space. */
  lemma {:induction false} DisplayNameWideSpacing(token: string)
    requires token == "cover   design"
    ensures Resolve(Shipped, token) == Some("COVER")
  {
    var single := "cover design";
    assert token == "cover" + "   " + "design" && single == "cover" + " " + "design";
    NormalizeIgnoresRunLength("cover", "   ", "design");
    DisplayNameIsNormal(single);
    CoverRule(single);
    ShippedFuzzyMatch(token, 1);
  }

  /** A price the order form appends to a display name is ignored. */
  lemma {:induction false} DisplayNameWithPrice(token: string)
    requires token == "Cover Design — $149"
    ensures Resolve(Shipped, token) == Some("COVER")
  {
    var name := "Cover Design";
    assert token == name + " — $149";
    NormalizeExtends(name, " — $149");
    CapitalizedNormal(name);
    CoverRule(Normalize(token));
    ShippedFuzzyMatch(token, 1);
  }

  /** The entry as the order form sends it, with a wide gap, capitals and
      the price, resolves like the tidy display name. */
  lemma {:induction false} DisplayNameAsSent(token: string)
    requires token == "Cover   Design — $149"
    ensures Resolve(Shipped, token) == Some("COVER")
  {
    var name := "Cover Design — $149";
    assert token == "Cover" + "   " + "Design — $149" && name == "Cover" + " " + "Design — $149";
    NormalizeIgnoresRunLength("Cover", "   ", "Design — $149");
    DisplayNameWithPrice(name);
    SameNormalForm(token, name);
  }

  /** Two tokens too long to be shipped codes resolve alike when they
      normalize alike. */
  lemma {:induction false} SameNormalForm(a: string, b: string)
    requires |a| > 7 && |b| > 7 && Normalize(a) == Normalize(b)
    ensures Resolve(Shipped, a) == Resolve(Shipped, b)
  {
    NotShippedCode(ToUpper(a));
    NotShippedCode(ToUpper(b));
  }

  /** Neither a shipped code nor a shipped display name fits in fewer than
      five characters, or in eight to eleven. */
  lemma {:induction false} ShortTokenUnknown(token: string)
    requires |token| < 5 || 7 < |token| < 12
    ensures Resolve(Shipped, token) == None
  {
    NotShippedCode(ToUpper(token));
    ResolvePrecedence(Shipped, token);
    assert |Normalize(token)| <= |token|;
  }

  /** One entry of a list: nonempty, without a comma, and with no
      whitespace at either end. */
  predicate IsEntry(s: string) {
    s != [] && ',' !in s && !IsSpace(s[0]) && !IsSpace(s[|s| - 1])
  }

  /** A list with a single trimmed entry has that entry as its only token. */
  lemma {:induction false} SingleToken(services: string)
    requires IsEntry(services)
    ensures Tokens(services) == [services]
  {
    TokensOfSegment(services);
    TrimOfTrimmed(services);
  }

  /** A code written as it appears in the catalog is an exact match. */
  lemma {:induction false} ExactShippedCode(code: string)
    requires code in Shipped.prices
    ensures Resolve(Shipped, code) == Some(code)
  {
    ShippedCodesAreUpperCase(code);
    UpperOfUpperCaseOnly(code);
    ResolvePrecedence(Shipped, code);
  }

  lemma {:induction false} DedupPair(a: string, b: string)
    requires a != b
    ensures Dedup([a, b]) == [a, b]
  {
    assert [a, b][..1] == [a];
    assert [a][..0] == [];
  }

  /** A display name missing its last letter matches no rule, and the parse
      names it as the unknown service. */
  lemma {:induction false} TruncatedName(services: string)
    requires services == "Cover Desig"
    ensures ParseSkus(Shipped, services) == Err(UnknownService("Cover Desig"))
  {
    assert IsEntry(services);
    SingleToken(services);
    ShortTokenUnknown(services);
  }

  lemma {:induction false} TwoTokens(a: string, b: string)
    requires IsEntry(a) && IsEntry(b)
    ensures Tokens(a + "," + b) == [a, b]
  {
    TokensAppend(a, b);
    SingleToken(a);
    SingleToken(b);
  }

  /** The per-token map over one token that resolves. */
  lemma {:induction false} ResolveSingle(c: ServiceCatalog, b: string, y: string)
    requires Resolve(c, b) == Some(y)
    ensures ResolveAll(c, [b]) == Ok([y])
  {
    assert [b][0] == b && [b][1..] == [] && [y] + [] == [y];
  }

  /** The per-token map over two tokens that both resolve. */
  lemma {:induction false} ResolvePair(c: ServiceCatalog, a: string, b: string, x: string, y: string)
    requires Resolve(c, a) == Some(x) && Resolve(c, b) == Some(y)
    ensures ResolveAll(c, [a, b]) == Ok([x, y])
  {
    ResolveSingle(c, b, y);
    assert [a, b][0] == a && [a, b][1..] == [b] && [x] + [y] == [x, y];
  }

  /** The parse of a list of two tokens that both resolve. */
  lemma {:induction false} ParseOfPair(c: ServiceCatalog, services: string, a: string, b: string, x: string, y: string)
    requires services != [] && |services| <= MaxServicesLength
    requires Tokens(services) == [a, b]
    requires Resolve(c, a) == Some(x) && Resolve(c, b) == Some(y)
    ensures ParseSkus(c, services) == if |Dedup([x, y])| > MaxSkus then Err(TooManyServices) else Ok(Dedup([x, y]))
  {
    ResolvePair(c, a, b, x, y);
  }

  /** Two different codes, each its own match, parse to themselves in
      order. */
  lemma {:induction false} ParseOfTwoCodes(c: ServiceCatalog, a: string, b: string)
    requires IsEntry(a) && IsEntry(b) && |a| + |b| < MaxServicesLength && a != b
    requires Resolve(c, a) == Some(a) && Resolve(c, b) == Some(b)
    ensures ParseSkus(c, a + "," + b) == Ok([a, b])
  {
    TwoTokens(a, b);
    DedupPair(a, b);
    ParseOfPair(c, a + "," + b, a, b, a, b);
  }

  // Facts about the literal `INTFMT,COVER`, kept in a lemma of their own so
  // that the proof of `TwoCodes` reasons about names rather than characters.
  lemma {:induction false} TwoCodeEntries(services: string, a: string, b: string)
    requires services == "INTFMT,COVER" && a == "INTFMT" && b == "COVER"
    ensures services == a + "," + b
    ensures IsEntry(a) && IsEntry(b) && |a| + |b| < MaxServicesLength && a != b
    ensures a in Shipped.prices && b in Shipped.prices
  {
  }

  /** Two codes come back in the order given. */
  lemma {:induction false} TwoCodes(services: string)
    requires services == "INTFMT,COVER"
    ensures ParseSkus(Shipped, services) == Ok(["INTFMT", "COVER"])
  {
    var a, b := "INTFMT", "COVER";
    TwoCodeEntries(services, a, b);
    ExactShippedCode(a);
    ExactShippedCode(b);
    ParseOfTwoCodes(Shipped, a, b);
  }

  lemma {:induction false} DedupRepeat(x: string)
    ensures Dedup([x, x]) == [x]
  {
    assert [x, x][..1] == [x];
    assert [x][..0] == [];
  }

  /** Two entries that name the same service parse to that one code. */
  lemma {:induction false} ParseOfRepeat(c: ServiceCatalog, a: string, b: string, code: string)
    requires IsEntry(a) && IsEntry(b) && |a| + |b| < MaxServicesLength
    requires Resolve(c, a) == Some(code) && Resolve(c, b) == Some(code)
    ensures ParseSkus(c, a + "," + b) == Ok([code])
  {
    TwoTokens(a, b);
    DedupRepeat(code);
    ParseOfPair(c, a + "," + b, a, b, code, code);
  }

  // Facts about the literal `COVER,cover design`, kept apart for the same
  // reason: the proof of `RepeatedService` then never unfolds the string.
  lemma {:induction false} RepeatEntries(services: string, a: string, b: string)
    requires services == "COVER,cover design" && a == "COVER" && b == "cover design"
    ensures services == a + "," + b && |a| + |b| < MaxServicesLength
    ensures a in Shipped.prices
  {
  }

  // The display name alone, as an entry of a list; a separate lemma so that
  // the characters are examined once, away from the parse.
  lemma {:induction false} DisplayNameEntry(b: string)
    requires b == "cover design"
    ensures IsEntry(b)
  {
  }

  /** Every shipped code can stand alone as an entry of a list. */
  lemma {:induction false} ShippedCodeIsEntry(code: string)
    requires code in Shipped.prices
    ensures IsEntry(code)
  {
    ShippedCodes();
    ShippedCodesAreUpperCase(code);
  }

  /** A service named once by code and once by display name is selected
      once. */
  lemma {:induction false} RepeatedService(services: string)
    requires services == "COVER,cover design"
    ensures ParseSkus(Shipped, services) == Ok(["COVER"])
  {
    var a, b := "COVER", "cover design";
    RepeatEntries(services, a, b);
    DisplayNameEntry(b);
    ShippedCodeIsEntry(a);
    ExactShippedCode(a);
    DisplayName(b);
    ParseOfRepeat(Shipped, a, b, a);
  }
}
