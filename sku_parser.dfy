/**
 * `parseSkus`: from the raw `services` query value to a deduplicated list of
 * catalog codes. The value is bounded in length, split on commas, each piece
 * trimmed and empty pieces dropped; every token is resolved by exact code
 * match on its upper-case form, then by the first fuzzy prefix rule that its
 * normalized form starts with; an unresolvable token aborts the parse; the
 * codes are deduplicated in first-occurrence order and their number bounded.
 */
module SkuParser {
  import opened Wrappers
  import opened Text
  import opened Catalog
  import opened Failures

  const MaxServicesLength: nat := 500
  const MaxSkus: nat := 20

  // ---------------------------------------------------------------------
  // Tokenization: split(','), map(trim), filter(Boolean)
  // ---------------------------------------------------------------------

  /** Trims each piece and drops those that are empty after trimming. */
  function Clean(pieces: seq<string>): (tokens: seq<string>)
    ensures |tokens| <= |pieces|
    ensures forall k :: 0 <= k < |tokens| ==>
      tokens[k] != [] && !IsSpace(tokens[k][0]) && !IsSpace(tokens[k][|tokens[k]| - 1])
  {
    if pieces == [] then []
    else
      var t := Trim(pieces[0]);
      (if t == [] then [] else [t]) + Clean(pieces[1..])
  }

  /** `split(',').map(s => s.trim()).filter(Boolean)`: no more tokens than
      pieces, each nonempty, comma-free and without whitespace at its ends. */
  function Tokens(services: string): (tokens: seq<string>)
    ensures |tokens| <= |Split(services, ',')|
    ensures forall k :: 0 <= k < |tokens| ==> tokens[k] != [] && ',' !in tokens[k]
  {
    CleanWithout(Split(services, ','), ',');
    Clean(Split(services, ','))
  }

  lemma {:induction false} CleanAppend(xs: seq<string>, ys: seq<string>)
    ensures Clean(xs + ys) == Clean(xs) + Clean(ys)
    decreases |xs|
  {
    if xs == [] {
      assert xs + ys == ys;
    } else {
      assert (xs + ys)[1..] == xs[1..] + ys;
      CleanAppend(xs[1..], ys);
    }
  }

  lemma {:induction false} CleanWithout(pieces: seq<string>, ch: char)
    requires forall j :: 0 <= j < |pieces| ==> ch !in pieces[j]
    ensures forall k :: 0 <= k < |Clean(pieces)| ==> ch !in Clean(pieces)[k]
    decreases |pieces|
  {
    if pieces != [] {
      TrimKeepsCharacters(pieces[0]);
      CleanWithout(pieces[1..], ch);
    }
  }

  /** Every token is non-empty, trimmed and comma-free. */
  lemma {:induction false} TokensAreTrimmedPieces(services: string)
    ensures forall k :: 0 <= k < |Tokens(services)| ==>
      var t := Tokens(services)[k];
      t != [] && Trim(t) == t && ',' !in t
  {
    CleanWithout(Split(services, ','), ',');
    forall k | 0 <= k < |Tokens(services)| ensures Trim(Tokens(services)[k]) == Tokens(services)[k] {
      TrimOfTrimmed(Tokens(services)[k]);
    }
  }

  /** A comma splits the token list: tokens never span a comma. */
  lemma {:induction false} TokensAppend(a: string, b: string)
    ensures Tokens(a + "," + b) == Tokens(a) + Tokens(b)
  {
    SplitAppend(a, ',', b);
    CleanAppend(Split(a, ','), Split(b, ','));
  }

  /** A stretch without commas yields its trimmed self, or nothing when it
      is all whitespace. */
  lemma {:induction false} TokensOfSegment(segment: string)
    requires ',' !in segment
    ensures Tokens(segment) == if AllSpace(segment) then [] else [Trim(segment)]
  {
    SplitNoSeparator(segment, ',');
    TrimEmptyIff(segment);
    assert Clean([segment]) == (if Trim(segment) == [] then [] else [Trim(segment)]) + Clean([]);
  }

  /** Nothing but commas and whitespace. */
  predicate OnlyCommasAndSpaces(s: string) {
    forall i :: 0 <= i < |s| ==> s[i] == ',' || IsSpace(s[i])
  }

  /** The token list is empty exactly when the value holds nothing but commas
      and whitespace. */
  lemma {:induction false} TokensEmptyIff(services: string)
    ensures Tokens(services) == [] <==> OnlyCommasAndSpaces(services)
    decreases |services|
  {
    if ',' in services {
      var k :| 0 <= k < |services| && services[k] == ',';
      var a, b := services[..k], services[k + 1..];
      assert services == a + "," + b;
      TokensAppend(a, b);
      TokensEmptyIff(a);
      TokensEmptyIff(b);
      FillerSplits(a, b);
    } else {
      TokensOfSegment(services);
      assert AllSpace(services) <==> OnlyCommasAndSpaces(services);
    }
  }

  lemma {:induction false} FillerSplits(a: string, b: string)
    ensures OnlyCommasAndSpaces(a + "," + b) <==> OnlyCommasAndSpaces(a) && OnlyCommasAndSpaces(b)
  {
    var s := a + "," + b;
    assert forall i :: 0 <= i < |a| ==> s[i] == a[i];
    assert forall i :: 0 <= i < |b| ==> s[|a| + 1 + i] == b[i];
  }

  /** A repeated comma between tokens changes nothing. */
  lemma {:induction false} TokensIgnoreRepeatedComma(a: string, b: string)
    ensures Tokens(a + ",," + b) == Tokens(a + "," + b)
  {
    assert a + ",," + b == a + "," + ("," + b);
    TokensAppend(a, "," + b);
    TokensIgnoreLeadingComma(b);
    TokensAppend(a, b);
  }

  /** A comma before the first token changes nothing. */
  lemma {:induction false} TokensIgnoreLeadingComma(s: string)
    ensures Tokens("," + s) == Tokens(s)
  {
    assert "," + s == [] + "," + s;
    TokensAppend([], s);
    TokensOfSegment([]);
  }

  /** A comma after the last token changes nothing. */
  lemma {:induction false} TokensIgnoreTrailingComma(s: string)
    ensures Tokens(s + ",") == Tokens(s)
  {
    assert s + "," == s + "," + [];
    TokensAppend(s, []);
    TokensOfSegment([]);
  }

  /** Whitespace around a token changes nothing. */
  lemma {:induction false} TokensIgnorePadding(w1: string, token: string, w2: string)
    requires AllSpace(w1) && AllSpace(w2) && ',' !in token
    ensures Tokens(w1 + token + w2) == Tokens(token)
  {
    var padded := w1 + token + w2;
    assert ',' !in padded by {
      forall i | 0 <= i < |padded| ensures padded[i] != ',' {
        if i < |w1| { assert padded[i] == w1[i]; }
        else if i < |w1| + |token| { assert padded[i] == token[i - |w1|]; }
        else { assert padded[i] == w2[i - |w1| - |token|]; }
      }
    }
    TokensOfSegment(padded);
    TokensOfSegment(token);
    TrimPadded(w1, token, w2);
    TrimEmptyIff(padded);
    TrimEmptyIff(token);
  }

  // ---------------------------------------------------------------------
  // Resolution of one token
  // ---------------------------------------------------------------------

  /** `replace(/\s+/g, ' ').trim().toLowerCase()` */
  function Normalize(token: string): (n: string)
    ensures |n| <= |token|
    ensures forall i :: 0 <= i < |n| ==> !('A' <= n[i] <= 'Z')
  {
    ToLower(Trim(CollapseSpaces(token)))
  }

  /** What normalization produces: single-spaced, no whitespace at either
      end, and no upper-case ASCII letter. */
  ghost predicate IsNormal(t: string) {
    && SingleSpaced(t)
    && (t != [] ==> !IsSpace(t[0]) && !IsSpace(t[|t| - 1]))
    && (forall i :: 0 <= i < |t| ==> !('A' <= t[i] <= 'Z'))
  }

  lemma {:induction false} NormalizeIsNormal(token: string)
    ensures IsNormal(Normalize(token))
  {
    var m := Trim(CollapseSpaces(token));
    TrimKeepsSingleSpaced(CollapseSpaces(token));
    LowerKeepsSingleSpaced(m);
    var n := ToLower(m);
    if n != [] {
      assert n[0] == LowerChar(m[0]) && n[|n| - 1] == LowerChar(m[|m| - 1]);
    }
  }

  /** A token already in normal form is its own normalization; hence
      normalizing twice is normalizing once. */
  lemma {:induction false} NormalFormIsFixed(t: string)
    requires IsNormal(t)
    ensures Normalize(t) == t
  {
    CollapseFixpoint(t);
    TrimOfTrimmed(t);
  }

  lemma {:induction false} NormalizeIdempotent(token: string)
    ensures Normalize(Normalize(token)) == Normalize(token)
  {
    NormalizeIsNormal(token);
    NormalFormIsFixed(Normalize(token));
  }

  /** A whitespace run inside a token normalizes like a single space. */
  lemma {:induction false} NormalizeIgnoresRunLength(a: string, w: string, b: string)
    requires a == [] || !IsSpace(a[|a| - 1])
    requires w != [] && AllSpace(w)
    requires b == [] || !IsSpace(b[0])
    ensures Normalize(a + w + b) == Normalize(a + " " + b)
  {
    CollapseIgnoresRunLength(a, w, b);
  }

  /** Text appended after a name only extends its normal form, so a name
      that matches a rule still matches it with anything after it. */
  lemma {:induction false} NormalizeExtends(name: string, tail: string)
    requires name != [] && !IsSpace(name[0]) && !IsSpace(name[|name| - 1])
    ensures Normalize(name) <= Normalize(name + tail)
  {
    var p := CollapseSpaces(name);
    CollapseKeepsLast(name);
    TrimOfTrimmed(p);
    assert Normalize(name) == ToLower(p);
    var q := p + CollapseSpaces(tail);
    CollapseAppend(name, tail);
    assert q[0] == p[0] == name[0];
    assert TrimStart(q) == q;
    TrimEndKeepsPrefix(p, CollapseSpaces(tail));
    assert Normalize(name + tail) == ToLower(TrimEnd(q));
    LowerKeepsPrefix(p, TrimEnd(q));
  }

  /** Rule `i` is the first whose prefix starts `normalized`. */
  predicate IsFirstMatch(rules: seq<FuzzyRule>, normalized: string, i: nat)
    requires i < |rules|
  {
    rules[i].prefix <= normalized && forall j :: 0 <= j < i ==> !(rules[j].prefix <= normalized)
  }

  /** The fuzzy rules, tried in order; the first that matches decides. */
  function FirstMatch(rules: seq<FuzzyRule>, normalized: string): (r: Option<string>)
    ensures r.None? <==> forall i :: 0 <= i < |rules| ==> !(rules[i].prefix <= normalized)
    ensures r.Some? ==>
      exists i :: 0 <= i < |rules| && IsFirstMatch(rules, normalized, i) && r.value == rules[i].code
  {
    if rules == [] then None
    else if rules[0].prefix <= normalized then Some(rules[0].code)
    else
      var r := FirstMatch(rules[1..], normalized);
      assert forall i :: 1 <= i < |rules| ==> rules[i] == rules[1..][i - 1];
      r
  }

  /** One token of the map in `parseSkus`: `None` is the "Unknown service"
      throw. In a well-formed catalog every resolved code is a catalog code. */
  function Resolve(c: ServiceCatalog, token: string): (r: Option<string>)
    ensures WellFormed(c) && r.Some? ==> r.value in c.prices
  {
    var upper := ToUpper(token);
    if upper in c.prices then Some(upper) else FirstMatch(c.rules, Normalize(token))
  }

  /** An exact code match wins over every fuzzy rule; otherwise the first
      fuzzy rule that matches wins, and a token no rule matches is unknown. */
  lemma {:induction false} ResolvePrecedence(c: ServiceCatalog, token: string)
    ensures ToUpper(token) in c.prices ==> Resolve(c, token) == Some(ToUpper(token))
    ensures ToUpper(token) !in c.prices ==>
      (Resolve(c, token).None? <==> forall i :: 0 <= i < |c.rules| ==> !(c.rules[i].prefix <= Normalize(token)))
    ensures ToUpper(token) !in c.prices ==> forall i :: 0 <= i < |c.rules| && IsFirstMatch(c.rules, Normalize(token), i) ==>
      Resolve(c, token) == Some(c.rules[i].code)
  {
    var n := Normalize(token);
    if ToUpper(token) !in c.prices {
      forall i | 0 <= i < |c.rules| && IsFirstMatch(c.rules, n, i) ensures FirstMatch(c.rules, n) == Some(c.rules[i].code) {
        var r := FirstMatch(c.rules, n);
        var i' :| 0 <= i' < |c.rules| && IsFirstMatch(c.rules, n, i') && r.value == c.rules[i'].code;
        assert i == i';
      }
    }
  }

  /** Normalization does not see letter case. */
  lemma {:induction false} NormalizeIgnoresCase(token: string)
    ensures Normalize(ToUpper(token)) == Normalize(token)
  {
    UpperCollapse(token);
    UpperTrim(CollapseSpaces(token));
    LowerOfUpper(Trim(CollapseSpaces(token)));
  }

  /** Resolution is case-insensitive: tokens that agree once upper-cased
      resolve alike, on the exact path and on the fuzzy path. */
  lemma {:induction false} ResolveIgnoresCase(c: ServiceCatalog, a: string, b: string)
    requires ToUpper(a) == ToUpper(b)
    ensures Resolve(c, a) == Resolve(c, b)
  {
    NormalizeIgnoresCase(a);
    NormalizeIgnoresCase(b);
  }

  /** Resolving the tail of a token list is resolving the list from its
      second token on. */
  lemma {:induction false} ResolveTail(c: ServiceCatalog, tokens: seq<string>)
    requires tokens != []
    ensures forall k {:trigger Resolve(c, tokens[k])} :: 1 <= k < |tokens| ==>
      Resolve(c, tokens[k]) == Resolve(c, tokens[1..][k - 1])
    ensures forall k {:trigger Resolve(c, tokens[1..][k])} :: 0 <= k < |tokens| - 1 ==>
      Resolve(c, tokens[1..][k]) == Resolve(c, tokens[k + 1])
  {
    forall k | 1 <= k < |tokens| ensures Resolve(c, tokens[k]) == Resolve(c, tokens[1..][k - 1]) {
      assert tokens[k] == tokens[1..][k - 1];
    }
    forall k | 0 <= k < |tokens| - 1 ensures Resolve(c, tokens[1..][k]) == Resolve(c, tokens[k + 1]) {
      assert tokens[1..][k] == tokens[k + 1];
    }
  }

  /** `tokens.map(...)`: the codes of all tokens when every one resolves, and
      otherwise the throw of the first that does not. */
  function ResolveAll(c: ServiceCatalog, tokens: seq<string>): (r: Result<seq<string>, Failure>)
    ensures r.Ok? <==> forall k {:trigger Resolve(c, tokens[k])} :: 0 <= k < |tokens| ==> Resolve(c, tokens[k]).Some?
    ensures r.Ok? ==> |r.value| == |tokens|
    ensures r.Ok? ==> forall k {:trigger Resolve(c, tokens[k])} :: 0 <= k < |tokens| ==> Resolve(c, tokens[k]) == Some(r.value[k])
    ensures r.Err? ==> r.error.UnknownService?
  {
    if tokens == [] then Ok([])
    else
      match Resolve(c, tokens[0])
      case None => Err(UnknownService(tokens[0]))
      case Some(code) =>
        var rest := ResolveAll(c, tokens[1..]);
        ResolveTail(c, tokens);
        match rest
        case Err(e) => Err(e)
        case Ok(codes) => Ok([code] + codes)
  }

  /** Token `k` is the first, in input order, that no rule resolves. */
  predicate IsFirstUnresolved(c: ServiceCatalog, tokens: seq<string>, k: int) {
    && 0 <= k < |tokens|
    && Resolve(c, tokens[k]).None?
    && forall j {:trigger Resolve(c, tokens[j])} :: 0 <= j < k ==> Resolve(c, tokens[j]).Some?
  }

  lemma {:induction false} FirstUnresolvedOfRest(c: ServiceCatalog, tokens: seq<string>, k: int)
    requires tokens != [] && Resolve(c, tokens[0]).Some? && IsFirstUnresolved(c, tokens[1..], k)
    ensures IsFirstUnresolved(c, tokens, k + 1) && tokens[k + 1] == tokens[1..][k]
  {
    forall j | 0 <= j < k + 1 ensures Resolve(c, tokens[j]).Some? {
      if j > 0 {
        assert tokens[j] == tokens[1..][j - 1];
      }
    }
  }

  /** The per-token map stops at the first token that does not resolve and
      throws with that token. */
  lemma {:induction false} ResolveAllStopsAtFirstUnresolved(c: ServiceCatalog, tokens: seq<string>)
    requires ResolveAll(c, tokens).Err?
    ensures exists k :: IsFirstUnresolved(c, tokens, k) && ResolveAll(c, tokens).error == UnknownService(tokens[k])
    decreases |tokens|
  {
    var e := ResolveAll(c, tokens).error;
    if Resolve(c, tokens[0]).None? {
      assert IsFirstUnresolved(c, tokens, 0) && e == UnknownService(tokens[0]);
    } else {
      var rest := tokens[1..];
      assert ResolveAll(c, rest).Err? && ResolveAll(c, rest).error == e;
      ResolveAllStopsAtFirstUnresolved(c, rest);
      var k :| IsFirstUnresolved(c, rest, k) && e == UnknownService(rest[k]);
      FirstUnresolvedOfRest(c, tokens, k);
    }
  }

  // ---------------------------------------------------------------------
  // Deduplication: [...new Set(skus)]
  // ---------------------------------------------------------------------

  predicate Distinct<T(==)>(s: seq<T>) {
    forall i, j :: 0 <= i < j < |s| ==> s[i] != s[j]
  }

  /** Adds the elements of `s` one by one to an insertion-ordered set. */
  function Dedup(s: seq<string>): (r: seq<string>)
    ensures Distinct(r)
    ensures forall x :: x in r <==> x in s
    ensures |r| <= |s|
  {
    if s == [] then []
    else
      var d := Dedup(s[..|s| - 1]);
      var x := s[|s| - 1];
      assert forall y :: y in s <==> y in s[..|s| - 1] || y == x;
      if x in d then d else d + [x]
  }

  /** The position of the first occurrence of `x` in `s`. */
  function FirstIndex<T(==)>(s: seq<T>, x: T): (k: nat)
    requires x in s
    ensures k < |s| && s[k] == x && x !in s[..k]
  {
    if s[0] == x then 0
    else
      var k := 1 + FirstIndex(s[1..], x);
      assert s[..k] == [s[0]] + s[1..][..k - 1];
      k
  }

  lemma {:induction false} FirstIndexOfPrefix<T>(s: seq<T>, n: nat, x: T)
    requires n <= |s| && x in s[..n]
    ensures FirstIndex(s, x) == FirstIndex(s[..n], x)
  {
    var k, k' := FirstIndex(s, x), FirstIndex(s[..n], x);
    assert s[..n][..k'] == s[..k'];
  }

  /** Deduplication keeps codes in the order of their first occurrence. */
  lemma {:induction false} DedupKeepsFirstOccurrenceOrder(s: seq<string>)
    ensures forall i, j :: 0 <= i < j < |Dedup(s)| ==>
      FirstIndex(s, Dedup(s)[i]) < FirstIndex(s, Dedup(s)[j])
    decreases |s|
  {
    if s != [] {
      var n := |s| - 1;
      var prefix := s[..n];
      var d := Dedup(prefix);
      var r := Dedup(s);
      DedupKeepsFirstOccurrenceOrder(prefix);
      assert r == if s[n] in d then d else d + [s[n]];
      forall i, j | 0 <= i < j < |r| ensures FirstIndex(s, r[i]) < FirstIndex(s, r[j]) {
        assert r[i] == d[i] && r[i] in prefix;
        FirstIndexOfPrefix(s, n, r[i]);
        if j < |d| {
          assert r[j] == d[j] && r[j] in prefix;
          FirstIndexOfPrefix(s, n, r[j]);
        } else {
          assert r[j] == s[n] && s[n] !in prefix;
          assert FirstIndex(s, s[n]) == n;
        }
      }
    }
  }

  /** A list that is already free of repeats passes through unchanged. */
  lemma {:induction false} DedupOfDistinct(s: seq<string>)
    requires Distinct(s)
    ensures Dedup(s) == s
    decreases |s|
  {
    if s != [] {
      var n := |s| - 1;
      DedupOfDistinct(s[..n]);
      assert s[n] !in s[..n];
      assert s[..n] + [s[n]] == s;
    }
  }

  /** A repeat-free list drawn from a set is no longer than the set. */
  lemma {:induction false} DistinctWithin<T>(s: seq<T>, bound: set<T>)
    requires Distinct(s)
    requires forall k :: 0 <= k < |s| ==> s[k] in bound
    ensures |s| <= |bound|
    decreases |s|
  {
    if s != [] {
      var n := |s| - 1;
      assert s[n] !in s[..n];
      DistinctWithin(s[..n], bound - {s[n]});
    }
  }

  // ---------------------------------------------------------------------
  // parseSkus
  // ---------------------------------------------------------------------

  function ParseSkus(c: ServiceCatalog, services: string): (r: Result<seq<string>, Failure>)
    ensures services == [] ==> r == Ok([])
    ensures r == Err(InputTooLong) <==> |services| > MaxServicesLength
    ensures r.Ok? ==> Distinct(r.value) && |r.value| <= MaxSkus
  {
    if services == [] then Ok([])
    else if |services| > MaxServicesLength then Err(InputTooLong)
    else
      match ResolveAll(c, Tokens(services))
      case Err(e) => Err(e)
      case Ok(codes) =>
        var unique := Dedup(codes);
        if |unique| > MaxSkus then Err(TooManyServices) else Ok(unique)
  }

  /** The codes of a successful per-token map are exactly what the tokens
      resolve to. */
  lemma {:induction false} ResolvedCodes(c: ServiceCatalog, tokens: seq<string>, codes: seq<string>)
    requires ResolveAll(c, tokens) == Ok(codes)
    ensures forall code :: code in codes <==> exists k :: 0 <= k < |tokens| && Resolve(c, tokens[k]) == Some(code)
  {
    forall code | code in codes ensures exists k :: 0 <= k < |tokens| && Resolve(c, tokens[k]) == Some(code) {
      var k :| 0 <= k < |codes| && codes[k] == code;
      assert Resolve(c, tokens[k]) == Some(code);
    }
  }

  /** A successful parse holds exactly the codes the tokens resolve to, and
      no more of them than there are tokens. */
  lemma {:induction false} ParsedCodesComeFromTokens(c: ServiceCatalog, services: string)
    requires ParseSkus(c, services).Ok?
    ensures var codes := ParseSkus(c, services).value;
      && |codes| <= |Tokens(services)|
      && forall code :: code in codes <==>
        exists k :: 0 <= k < |Tokens(services)| && Resolve(c, Tokens(services)[k]) == Some(code)
  {
    var tokens := Tokens(services);
    if services != [] {
      var resolved := ResolveAll(c, tokens);
      ResolvedCodes(c, tokens, resolved.value);
    }
  }

  /** A successful parse is the deduplicated result of the per-token map. */
  lemma {:induction false} ParseIsDedupOfResolved(c: ServiceCatalog, services: string)
    requires ParseSkus(c, services).Ok?
    ensures ResolveAll(c, Tokens(services)).Ok?
    ensures ParseSkus(c, services).value == Dedup(ResolveAll(c, Tokens(services)).value)
  {
    if services == [] {
      assert Tokens(services) == [];
    }
  }

  /** A successful parse lists its codes in the order in which each first
      appears among the codes of the tokens. */
  lemma {:induction false} ParsedCodesKeepFirstOccurrenceOrder(c: ServiceCatalog, services: string)
    requires ParseSkus(c, services).Ok?
    ensures ResolveAll(c, Tokens(services)).Ok?
    ensures var codes := ParseSkus(c, services).value;
      var resolved := ResolveAll(c, Tokens(services)).value;
      forall i, j :: 0 <= i < j < |codes| ==>
        codes[i] in resolved && codes[j] in resolved && FirstIndex(resolved, codes[i]) < FirstIndex(resolved, codes[j])
  {
    ParseIsDedupOfResolved(c, services);
    DedupKeepsFirstOccurrenceOrder(ResolveAll(c, Tokens(services)).value);
  }

  /** In a well-formed catalog a successful parse holds catalog codes only,
      and so no more codes than the catalog has. */
  lemma {:induction false} ParsedCodesAreCatalogCodes(c: ServiceCatalog, services: string)
    requires WellFormed(c) && ParseSkus(c, services).Ok?
    ensures forall k :: 0 <= k < |ParseSkus(c, services).value| ==> ParseSkus(c, services).value[k] in c.prices
    ensures |ParseSkus(c, services).value| <= |c.prices.Keys|
  {
    var codes := ParseSkus(c, services).value;
    var tokens := Tokens(services);
    ParsedCodesComeFromTokens(c, services);
    forall k | 0 <= k < |codes| ensures codes[k] in c.prices {
      assert codes[k] in codes;
      var j :| 0 <= j < |tokens| && Resolve(c, tokens[j]) == Some(codes[k]);
    }
    DistinctWithin(codes, c.prices.Keys);
  }

  /** The parse fails on an unknown token only for the first token, in input
      order, that no rule resolves; the error carries that token. */
  lemma {:induction false} UnknownServiceIsFirstUnresolved(c: ServiceCatalog, services: string)
    requires ParseSkus(c, services).Err? && ParseSkus(c, services).error.UnknownService?
    ensures exists k :: IsFirstUnresolved(c, Tokens(services), k) && ParseSkus(c, services).error.token == Tokens(services)[k]
  {
    ResolveAllStopsAtFirstUnresolved(c, Tokens(services));
  }

  /** The count bound looks at distinct codes only: if every token resolves
      into a set of at most `MaxSkus` codes, however often each one is
      repeated, the parse does not fail with too many services. */
  lemma {:induction false} TooManyCountsDistinctCodes(c: ServiceCatalog, services: string, bound: set<string>)
    requires |bound| <= MaxSkus
    requires forall k :: 0 <= k < |Tokens(services)| && Resolve(c, Tokens(services)[k]).Some? ==>
      Resolve(c, Tokens(services)[k]).value in bound
    ensures ParseSkus(c, services) != Err(TooManyServices)
  {
    var tokens := Tokens(services);
    if services != [] && |services| <= MaxServicesLength {
      var resolved := ResolveAll(c, tokens);
      if resolved.Ok? {
        var unique := Dedup(resolved.value);
        ResolvedCodes(c, tokens, resolved.value);
        forall k | 0 <= k < |unique| ensures unique[k] in bound {
          assert unique[k] in resolved.value;
        }
        DistinctWithin(unique, bound);
      }
    }
  }

  /** With the shipped three-code catalog the count bound can never fire. */
  lemma {:induction false} ShippedNeverTooMany(services: string)
    ensures ParseSkus(Shipped, services) != Err(TooManyServices)
  {
    ShippedCatalog();
    var tokens := Tokens(services);
    forall k | 0 <= k < |tokens| && Resolve(Shipped, tokens[k]).Some?
      ensures Resolve(Shipped, tokens[k]).value in Shipped.prices.Keys
    {
    }
    TooManyCountsDistinctCodes(Shipped, services, Shipped.prices.Keys);
  }

  /** Within the length bound the parse depends on the token list alone. */
  lemma {:induction false} ParseDependsOnlyOnTokens(c: ServiceCatalog, s1: string, s2: string)
    requires |s1| <= MaxServicesLength && |s2| <= MaxServicesLength
    requires Tokens(s1) == Tokens(s2)
    ensures ParseSkus(c, s1) == ParseSkus(c, s2)
  {
    assert Tokens([]) == [];
  }

  /** Within the length bound, the parse selects nothing exactly when the
      value holds nothing but commas and whitespace. */
  lemma {:induction false} FillerSelectsNothing(c: ServiceCatalog, services: string)
    requires |services| <= MaxServicesLength
    ensures OnlyCommasAndSpaces(services) ==> ParseSkus(c, services) == Ok([])
    ensures ParseSkus(c, services) == Ok([]) ==> OnlyCommasAndSpaces(services)
  {
    TokensEmptyIff(services);
  }
}
