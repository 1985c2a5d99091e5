/**
 * The string primitives the checkout router relies on, as JavaScript defines
 * them: `trim`, the `\s` class, `toUpperCase`/`toLowerCase` (ASCII letters
 * only), `replace(/\s+/g, ' ')`, `split(',')` and `join(',')`.
 */
module Text {

  /** ECMAScript WhiteSpace and LineTerminator code points: the set that both
      `String.prototype.trim` and the regular-expression class `\s` use. */
  predicate IsSpace(ch: char) {
    var n := ch as int;
    n == 0x09 || n == 0x0A || n == 0x0B || n == 0x0C || n == 0x0D || n == 0x20 ||
    n == 0xA0 || n == 0x1680 || (0x2000 <= n <= 0x200A) || n == 0x2028 ||
    n == 0x2029 || n == 0x202F || n == 0x205F || n == 0x3000 || n == 0xFEFF
  }

  predicate AllSpace(s: string) {
    forall i :: 0 <= i < |s| ==> IsSpace(s[i])
  }

  /** Drops leading whitespace. */
  function TrimStart(s: string): (r: string)
    ensures |r| <= |s|
    ensures r != [] ==> !IsSpace(r[0])
  {
    if s != [] && IsSpace(s[0]) then TrimStart(s[1..]) else s
  }

  /** Drops trailing whitespace. */
  function TrimEnd(s: string): (r: string)
    ensures |r| <= |s|
    ensures r != [] ==> r[0] == s[0] && !IsSpace(r[|r| - 1])
  {
    if s != [] && IsSpace(s[|s| - 1]) then TrimEnd(s[..|s| - 1]) else s
  }

  /** `String.prototype.trim`: no whitespace is left at either end. */
  function Trim(s: string): (r: string)
    ensures r != [] ==> !IsSpace(r[0]) && !IsSpace(r[|r| - 1])
  {
    TrimEnd(TrimStart(s))
  }

  /** TrimStart keeps the longest suffix that does not start with
      whitespace: what it drops is all whitespace. */
  lemma {:induction false} TrimStartIsSuffix(s: string)
    ensures TrimStart(s) == s[|s| - |TrimStart(s)|..]
    ensures AllSpace(s[..|s| - |TrimStart(s)|])
    decreases |s|
  {
    if s != [] && IsSpace(s[0]) {
      TrimStartIsSuffix(s[1..]);
      var k := |s| - |TrimStart(s)|;
      assert s[1..][k - 1..] == s[k..];
      forall i | 0 <= i < k ensures IsSpace(s[i]) {
        if i > 0 { assert s[i] == s[1..][..k - 1][i - 1]; }
      }
    } else {
      assert s[0..] == s;
    }
  }

  /** TrimEnd keeps the longest prefix that does not end with whitespace:
      what it drops is all whitespace. */
  lemma {:induction false} TrimEndIsPrefix(s: string)
    ensures TrimEnd(s) == s[..|TrimEnd(s)|]
    ensures AllSpace(s[|TrimEnd(s)|..])
    decreases |s|
  {
    if s != [] && IsSpace(s[|s| - 1]) {
      var n := |s| - 1;
      TrimEndIsPrefix(s[..n]);
      var k := |TrimEnd(s)|;
      assert s[..n][..k] == s[..k];
      forall i | k <= i < |s| ensures IsSpace(s[i]) {
        if i < n { assert s[i] == s[..n][k..][i - k]; }
      }
    } else {
      assert s[..|s|] == s;
    }
  }

  /** Trim keeps only characters of its input. */
  lemma {:induction false} TrimKeepsCharacters(s: string)
    ensures forall ch :: ch in Trim(s) ==> ch in s
  {
    var t := TrimStart(s);
    var r := TrimEnd(t);
    TrimStartIsSuffix(s);
    TrimEndIsPrefix(t);
    forall ch | ch in r ensures ch in s {
      var k :| 0 <= k < |r| && r[k] == ch;
      assert r[k] == t[k];
      assert t[k] == s[|s| - |t| + k];
    }
  }

  lemma {:induction false} TrimStartEmptyIff(s: string)
    ensures TrimStart(s) == [] <==> AllSpace(s)
  {
    var r := TrimStart(s);
    TrimStartIsSuffix(s);
    assert s[..|s|] == s;
    if r != [] {
      assert r[0] == s[|s| - |r|];
    }
  }

  lemma {:induction false} TrimEmptyIff(s: string)
    ensures Trim(s) == [] <==> AllSpace(s)
  {
    var t := TrimStart(s);
    TrimStartEmptyIff(s);
    TrimEndIsPrefix(t);
    assert t != [] ==> t[0..][0] == t[0];
  }

  lemma {:induction false} TrimOfTrimmed(s: string)
    requires s != [] ==> !IsSpace(s[0]) && !IsSpace(s[|s| - 1])
    ensures Trim(s) == s
  {
  }

  /** Whitespace around a string does not survive trimming. */
  lemma {:induction false} TrimPadded(w1: string, s: string, w2: string)
    requires AllSpace(w1) && AllSpace(w2)
    ensures Trim(w1 + s + w2) == Trim(s)
  {
    assert w1 + s + w2 == w1 + (s + w2);
    TrimStartPadded(w1, s + w2);
    var t := TrimStart(s);
    TrimStartSuffix(s, w2);
    if TrimStart(s + w2) == t + w2 {
      TrimEndPadded(t, w2);
    }
  }

  lemma {:induction false} TrimStartPadded(w: string, s: string)
    requires AllSpace(w)
    ensures TrimStart(w + s) == TrimStart(s)
    decreases |w|
  {
    if w == [] {
      assert w + s == s;
    } else {
      assert (w + s)[0] == w[0];
      assert (w + s)[1..] == w[1..] + s;
      TrimStartPadded(w[1..], s);
    }
  }

  lemma {:induction false} TrimStartSuffix(s: string, w: string)
    requires AllSpace(w)
    ensures TrimStart(s + w) == TrimStart(s) + w || (TrimStart(s) == [] && TrimStart(s + w) == [])
    decreases |s|
  {
    if s == [] {
      assert s + w == w;
      TrimStartPadded(w, []);
      assert w + [] == w;
    } else if IsSpace(s[0]) {
      assert (s + w)[1..] == s[1..] + w;
      TrimStartSuffix(s[1..], w);
    }
  }

  lemma {:induction false} TrimEndPadded(s: string, w: string)
    requires AllSpace(w)
    ensures TrimEnd(s + w) == TrimEnd(s)
    decreases |w|
  {
    if w == [] {
      assert s + w == s;
    } else {
      assert (s + w)[..|s + w| - 1] == s + w[..|w| - 1];
      TrimEndPadded(s, w[..|w| - 1]);
    }
  }

  /** ASCII `toUpperCase` of one character. */
  function UpperChar(ch: char): char {
    if 'a' <= ch <= 'z' then (ch as int - 32) as char else ch
  }

  /** ASCII `toLowerCase` of one character. */
  function LowerChar(ch: char): char {
    if 'A' <= ch <= 'Z' then (ch as int + 32) as char else ch
  }

  function ToUpper(s: string): (r: string)
    ensures |r| == |s|
    ensures forall i {:trigger r[i]} :: 0 <= i < |s| ==> r[i] == UpperChar(s[i])
  {
    if s == [] then [] else [UpperChar(s[0])] + ToUpper(s[1..])
  }

  function ToLower(s: string): (r: string)
    ensures |r| == |s|
    ensures forall i {:trigger r[i]} :: 0 <= i < |s| ==> r[i] == LowerChar(s[i])
  {
    if s == [] then [] else [LowerChar(s[0])] + ToLower(s[1..])
  }

  /** Upper-casing never turns whitespace into a letter or back. */
  lemma UpperKeepsSpace(ch: char)
    ensures IsSpace(UpperChar(ch)) <==> IsSpace(ch)
  {
  }

  lemma {:induction false} ToUpperAppend(a: string, b: string)
    ensures ToUpper(a + b) == ToUpper(a) + ToUpper(b)
    decreases |a|
  {
    if a == [] {
      assert a + b == b;
    } else {
      ToUpperAppend(a[1..], b);
      assert (a + b)[0] == a[0] && (a + b)[1..] == a[1..] + b;
      AppendAssociates([UpperChar(a[0])], ToUpper(a[1..]), ToUpper(b));
    }
  }

  /** A string with no lower-case ASCII letter is its own upper-casing. */
  lemma {:induction false} UpperOfUpperCaseOnly(s: string)
    requires forall i :: 0 <= i < |s| ==> !('a' <= s[i] <= 'z')
    ensures ToUpper(s) == s
  {
  }

  /** Lower-casing keeps a prefix a prefix. */
  lemma {:induction false} LowerKeepsPrefix(p: string, s: string)
    requires p <= s
    ensures ToLower(p) <= ToLower(s)
  {
    assert forall i :: 0 <= i < |p| ==> p[i] == s[i];
  }

  /** Lower-casing forgets an earlier upper-casing. */
  lemma {:induction false} LowerOfUpper(s: string)
    ensures ToLower(ToUpper(s)) == ToLower(s)
  {
  }

  /** Upper-casing commutes with `trimStart`. */
  lemma {:induction false} UpperTrimStart(s: string)
    ensures ToUpper(TrimStart(s)) == TrimStart(ToUpper(s))
    decreases |s|
  {
    if s != [] {
      UpperKeepsSpace(s[0]);
      if IsSpace(s[0]) {
        assert ToUpper(s)[1..] == ToUpper(s[1..]);
        UpperTrimStart(s[1..]);
      }
    }
  }

  /** Upper-casing commutes with `trimEnd`. */
  lemma {:induction false} UpperTrimEnd(s: string)
    ensures ToUpper(TrimEnd(s)) == TrimEnd(ToUpper(s))
    decreases |s|
  {
    if s != [] {
      var n := |s| - 1;
      UpperKeepsSpace(s[n]);
      if IsSpace(s[n]) {
        assert ToUpper(s)[..n] == ToUpper(s[..n]);
        UpperTrimEnd(s[..n]);
      }
    }
  }

  lemma {:induction false} UpperTrim(s: string)
    ensures ToUpper(Trim(s)) == Trim(ToUpper(s))
  {
    UpperTrimStart(s);
    UpperTrimEnd(TrimStart(s));
  }

  /** Every whitespace character is a plain space and no two of them are
      neighbours. */
  ghost predicate SingleSpaced(s: string) {
    && (forall i :: 0 <= i < |s| && IsSpace(s[i]) ==> s[i] == ' ')
    && (forall i, j :: 0 <= i < j < |s| && j == i + 1 ==> !(IsSpace(s[i]) && IsSpace(s[j])))
  }

  lemma {:induction false} TrimKeepsSingleSpaced(s: string)
    requires SingleSpaced(s)
    ensures SingleSpaced(Trim(s))
  {
    var t := TrimStart(s);
    var r := TrimEnd(t);
    TrimStartIsSuffix(s);
    TrimEndIsPrefix(t);
    var k := |s| - |t|;
    assert forall i :: 0 <= i < |r| ==> r[i] == s[k + i];
    assert forall i, j :: 0 <= i < j < |r| && j == i + 1 ==> !(IsSpace(r[i]) && IsSpace(r[j])) by {
      forall i, j | 0 <= i < j < |r| && j == i + 1 ensures !(IsSpace(r[i]) && IsSpace(r[j])) {
        assert r[i] == s[k + i] && r[j] == s[k + i + 1];
      }
    }
  }

  lemma {:induction false} LowerKeepsSingleSpaced(s: string)
    requires SingleSpaced(s)
    ensures SingleSpaced(ToLower(s))
  {
    var r := ToLower(s);
    assert forall i, j :: 0 <= i < j < |r| && j == i + 1 ==> !(IsSpace(r[i]) && IsSpace(r[j])) by {
      forall i, j | 0 <= i < j < |r| && j == i + 1 ensures !(IsSpace(r[i]) && IsSpace(r[j])) {
        assert r[i] == LowerChar(s[i]) && r[j] == LowerChar(s[j]);
      }
    }
  }

  /** `replace(/\s+/g, ' ')`: every maximal run of whitespace becomes one
      space, every other character is kept. */
  function CollapseSpaces(s: string): (r: string)
    ensures |r| <= |s|
    ensures r == [] <==> s == []
    ensures s != [] && !IsSpace(s[0]) ==> r[0] == s[0]
    ensures SingleSpaced(r)
    decreases |s|
  {
    if s == [] then []
    else if IsSpace(s[0]) then [' '] + CollapseSpaces(TrimStart(s[1..]))
    else [s[0]] + CollapseSpaces(s[1..])
  }

  /** Upper-casing commutes with collapsing whitespace runs. */
  lemma {:induction false} UpperCollapse(s: string)
    ensures ToUpper(CollapseSpaces(s)) == CollapseSpaces(ToUpper(s))
    decreases |s|
  {
    if s != [] {
      var u := ToUpper(s);
      UpperKeepsSpace(s[0]);
      assert u[1..] == ToUpper(s[1..]);
      if IsSpace(s[0]) {
        var t := TrimStart(s[1..]);
        UpperCollapse(t);
        UpperTrimStart(s[1..]);
        ToUpperAppend([' '], CollapseSpaces(t));
      } else {
        UpperCollapse(s[1..]);
        ToUpperAppend([s[0]], CollapseSpaces(s[1..]));
      }
    }
  }

  /** A single-spaced string is left as it is by collapsing; so collapsing
      twice is collapsing once. */
  lemma {:induction false} CollapseFixpoint(s: string)
    requires SingleSpaced(s)
    ensures CollapseSpaces(s) == s
    decreases |s|
  {
    if s != [] {
      var t := s[1..];
      assert forall i :: 0 <= i < |t| ==> t[i] == s[i + 1];
      assert forall i, j :: 0 <= i < j < |t| && j == i + 1 ==> !(IsSpace(t[i]) && IsSpace(t[j])) by {
        forall i, j | 0 <= i < j < |t| && j == i + 1 ensures !(IsSpace(t[i]) && IsSpace(t[j])) {
          assert t[i] == s[i + 1] && t[j] == s[j + 1];
        }
      }
      CollapseFixpoint(t);
      if IsSpace(s[0]) && t != [] {
        assert !IsSpace(s[1]);
      }
      assert [s[0]] + t == s;
    }
  }

  lemma {:induction false} CollapseIdempotent(s: string)
    ensures CollapseSpaces(CollapseSpaces(s)) == CollapseSpaces(s)
  {
    CollapseFixpoint(CollapseSpaces(s));
  }

  /** Trimming the start of a string that ends in a non-space character
      never reaches what follows it. */
  lemma {:induction false} TrimStartAppend(a: string, b: string)
    requires a != [] && !IsSpace(a[|a| - 1])
    ensures TrimStart(a + b) == TrimStart(a) + b
    ensures TrimStart(a) != [] && !IsSpace(TrimStart(a)[|TrimStart(a)| - 1])
    decreases |a|
  {
    assert (a + b)[0] == a[0];
    if IsSpace(a[0]) {
      assert |a| > 1;
      assert (a + b)[1..] == a[1..] + b;
      TrimStartAppend(a[1..], b);
    }
  }

  lemma AppendAssociates(x: string, y: string, z: string)
    ensures x + (y + z) == (x + y) + z
  {
  }

  /** Collapsing works piecewise across a boundary after a non-space
      character. */
  lemma {:induction false} CollapseAppend(a: string, b: string)
    requires a == [] || !IsSpace(a[|a| - 1])
    ensures CollapseSpaces(a + b) == CollapseSpaces(a) + CollapseSpaces(b)
    decreases |a|
  {
    if a == [] {
      assert a + b == b;
      assert CollapseSpaces(a) + CollapseSpaces(b) == CollapseSpaces(b);
    } else {
      var ab := a + b;
      var rest := a[1..];
      assert ab[0] == a[0] && ab[1..] == rest + b;
      if IsSpace(a[0]) {
        TrimStartAppend(rest, b);
        var t := TrimStart(rest);
        CollapseAppend(t, b);
        calc {
          CollapseSpaces(ab);
          [' '] + CollapseSpaces(t + b);
          [' '] + (CollapseSpaces(t) + CollapseSpaces(b));
          { AppendAssociates([' '], CollapseSpaces(t), CollapseSpaces(b)); }
          ([' '] + CollapseSpaces(t)) + CollapseSpaces(b);
          CollapseSpaces(a) + CollapseSpaces(b);
        }
      } else {
        CollapseAppend(rest, b);
        calc {
          CollapseSpaces(ab);
          [a[0]] + CollapseSpaces(rest + b);
          [a[0]] + (CollapseSpaces(rest) + CollapseSpaces(b));
          { AppendAssociates([a[0]], CollapseSpaces(rest), CollapseSpaces(b)); }
          ([a[0]] + CollapseSpaces(rest)) + CollapseSpaces(b);
          CollapseSpaces(a) + CollapseSpaces(b);
        }
      }
    }
  }

  /** A whitespace run before a non-space character collapses to one space. */
  lemma {:induction false} CollapseSpaceRun(w: string, b: string)
    requires w != [] && AllSpace(w)
    requires b == [] || !IsSpace(b[0])
    ensures CollapseSpaces(w + b) == [' '] + CollapseSpaces(b)
  {
    assert (w + b)[0] == w[0];
    assert (w + b)[1..] == w[1..] + b;
    TrimStartPadded(w[1..], b);
  }

  /** Collapsing keeps a non-space last character at the end. */
  lemma {:induction false} CollapseKeepsLast(a: string)
    requires a != [] && !IsSpace(a[|a| - 1])
    ensures CollapseSpaces(a) != [] && !IsSpace(CollapseSpaces(a)[|CollapseSpaces(a)| - 1])
    decreases |a|
  {
    if |a| > 1 {
      var rest := a[1..];
      assert rest[|rest| - 1] == a[|a| - 1];
      if IsSpace(a[0]) {
        TrimStartAppend(rest, []);
        CollapseKeepsLast(TrimStart(rest));
      } else {
        CollapseKeepsLast(rest);
      }
    }
  }

  /** Trimming the end of a string never reaches into a prefix that ends in a
      non-space character. */
  lemma {:induction false} TrimEndKeepsPrefix(p: string, x: string)
    requires p != [] && !IsSpace(p[|p| - 1])
    ensures p <= TrimEnd(p + x)
    decreases |x|
  {
    var px := p + x;
    if x == [] {
      assert px == p;
    } else if IsSpace(x[|x| - 1]) {
      assert px[..|px| - 1] == p + x[..|x| - 1];
      TrimEndKeepsPrefix(p, x[..|x| - 1]);
    }
  }

  /** Only the presence of a whitespace run between two words matters to
      collapsing, not its length or its characters. */
  lemma {:induction false} CollapseIgnoresRunLength(a: string, w: string, b: string)
    requires a == [] || !IsSpace(a[|a| - 1])
    requires w != [] && AllSpace(w)
    requires b == [] || !IsSpace(b[0])
    ensures CollapseSpaces(a + w + b) == CollapseSpaces(a + " " + b)
  {
    assert a + w + b == a + (w + b);
    assert a + " " + b == a + (" " + b);
    CollapseAppend(a, w + b);
    CollapseAppend(a, " " + b);
    CollapseSpaceRun(w, b);
    CollapseSpaceRun(" ", b);
  }

  /** `split(sep)` with a one-character separator: the pieces between
      separators, so that there is always at least one piece. */
  function Split(s: string, sep: char): (pieces: seq<string>)
    ensures |pieces| >= 1
    ensures forall k :: 0 <= k < |pieces| ==> sep !in pieces[k]
    decreases |s|
  {
    if s == [] then [[]]
    else
      var rest := Split(s[1..], sep);
      if s[0] == sep then [[]] + rest
      else [[s[0]] + rest[0]] + rest[1..]
  }

  /** `join(sep)`: the pieces with one separator between neighbours. */
  function Join(pieces: seq<string>, sep: char): (r: string)
    ensures pieces != [] ==> pieces[0] <= r
    ensures forall k :: 0 <= k < |pieces| ==> |pieces[k]| <= |r|
  {
    if pieces == [] then []
    else if |pieces| == 1 then pieces[0]
    else pieces[0] + [sep] + Join(pieces[1..], sep)
  }

  /** Splitting at a separator splits the piece lists. */
  lemma {:induction false} SplitAppend(a: string, sep: char, b: string)
    ensures Split(a + [sep] + b, sep) == Split(a, sep) + Split(b, sep)
    decreases |a|
  {
    if a == [] {
      assert a + [sep] + b == [sep] + b;
      assert ([sep] + b)[1..] == b;
    } else {
      assert (a + [sep] + b)[1..] == a[1..] + [sep] + b;
      SplitAppend(a[1..], sep, b);
    }
  }

  lemma {:induction false} SplitNoSeparator(s: string, sep: char)
    requires sep !in s
    ensures Split(s, sep) == [s]
    decreases |s|
  {
    if s != [] {
      assert sep !in s[1..] by {
        forall k | 0 <= k < |s| - 1 ensures s[1..][k] != sep {
          assert s[1..][k] == s[k + 1];
        }
      }
      SplitNoSeparator(s[1..], sep);
      assert [s[0]] + s[1..] == s;
    }
  }

  /** Joining the pieces of a split gives back the string. */
  lemma {:induction false} JoinSplit(s: string, sep: char)
    ensures Join(Split(s, sep), sep) == s
    decreases |s|
  {
    if s != [] {
      var rest := Split(s[1..], sep);
      JoinSplit(s[1..], sep);
      if s[0] != sep && |rest| > 1 {
        assert Join(rest, sep) == rest[0] + [sep] + Join(rest[1..], sep);
        assert ([[s[0]] + rest[0]] + rest[1..])[1..] == rest[1..];
      }
    }
  }

  /** Splitting a join of separator-free pieces gives back the pieces. */
  lemma {:induction false} SplitJoin(pieces: seq<string>, sep: char)
    requires pieces != []
    requires forall k :: 0 <= k < |pieces| ==> sep !in pieces[k]
    ensures Split(Join(pieces, sep), sep) == pieces
    decreases |pieces|
  {
    if |pieces| == 1 {
      SplitNoSeparator(pieces[0], sep);
    } else {
      SplitJoin(pieces[1..], sep);
      SplitAppend(pieces[0], sep, Join(pieces[1..], sep));
      SplitNoSeparator(pieces[0], sep);
      assert [pieces[0]] + pieces[1..] == pieces;
    }
  }
}
