/** Go's `strings` helpers as the core uses them, over strings of runes.

    A Dafny `char` is a Unicode scalar value, which is what Go yields when it
    ranges over a string; byte lengths live in module Utf8. */
module Strings {

  import opened Basics

  // ---------------------------------------------------------------------------
  // Character classes
  // ---------------------------------------------------------------------------

  predicate IsAsciiUpper(c: char) { 'A' <= c <= 'Z' }

  predicate IsAscii(c: char) { c as int < 0x80 }

  /** RE2's `\w`, which is ASCII-only: `[0-9A-Za-z_]`. */
  predicate IsWordChar(c: char)
  {
    ('0' <= c <= '9') || ('a' <= c <= 'z') || ('A' <= c <= 'Z') || c == '_'
  }

  predicate IsNotWordChar(c: char) { !IsWordChar(c) }

  predicate IsNewline(c: char) { c == '\n' }

  predicate IsComma(c: char) { c == ',' }

  /** Go's `unicode.IsSpace`: the Latin-1 spaces plus the other runes with the
      White_Space property. */
  predicate IsSpace(c: char)
  {
    if c <= '\U{00A0}' then
      ('\t' <= c <= '\r') || c == ' ' || c == '\U{0085}' || c == '\U{00A0}'
    else
      || c == '\U{1680}' || ('\U{2000}' <= c <= '\U{200A}')
      || c == '\U{2028}' || c == '\U{2029}' || c == '\U{202F}' || c == '\U{205F}' || c == '\U{3000}'
  }

  predicate AllSpace(s: string)
  {
    forall i :: 0 <= i < |s| ==> IsSpace(s[i])
  }

  // ---------------------------------------------------------------------------
  // Lower-casing (strings.ToLower)
  // ---------------------------------------------------------------------------

  /** `unicode.ToLower` on the runes this model distinguishes: ASCII capitals,
      the two non-ASCII runes whose lower case is ASCII (U+0130 and the Kelvin
      sign U+212A) and the Cyrillic capitals. Every other rune is kept. */
  function LowerRune(c: char): (r: char)
    ensures IsAsciiUpper(c) ==> r as int == c as int + 32
    ensures !IsAsciiUpper(r)
    ensures IsAscii(r) <==> IsAscii(c) || c == '\U{0130}' || c == '\U{212A}'
    ensures IsAscii(c) && !IsAsciiUpper(c) ==> r == c
  {
    if IsAsciiUpper(c) then (c as int + 32) as char
    else if c == '\U{0130}' then 'i'
    else if c == '\U{212A}' then 'k'
    else if '\U{0410}' <= c <= '\U{042F}' then (c as int + 0x20) as char
    else if '\U{0400}' <= c <= '\U{040F}' then (c as int + 0x50) as char
    else c
  }

  function Lower(s: string): (r: string)
    ensures |r| == |s|
    ensures forall i :: 0 <= i < |s| ==> r[i] == LowerRune(s[i])
  {
    seq(|s|, i requires 0 <= i < |s| => LowerRune(s[i]))
  }

  lemma LowerRuneIdempotent(c: char)
    ensures LowerRune(LowerRune(c)) == LowerRune(c)
  {
  }

  /** Lower-casing twice is lower-casing once. */
  lemma LowerIdempotent(s: string)
    ensures Lower(Lower(s)) == Lower(s)
  {
    forall i | 0 <= i < |s| ensures Lower(Lower(s))[i] == Lower(s)[i] {
      LowerRuneIdempotent(s[i]);
    }
  }

  // ---------------------------------------------------------------------------
  // Prefixes, suffixes, search
  // ---------------------------------------------------------------------------

  predicate HasPrefix(s: string, p: string) { |p| <= |s| && s[..|p|] == p }

  predicate HasSuffix(s: string, x: string) { |x| <= |s| && s[|s| - |x|..] == x }

  /** `strings.Index(s, string(c))`, with `None` for Go's -1. */
  function IndexOf(s: string, c: char): (r: Option<nat>)
    ensures r.None? <==> c !in s
    ensures r.Some? ==> r.value < |s| && s[r.value] == c && c !in s[..r.value]
  {
    if s == [] then None
    else if s[0] == c then Some(0)
    else match IndexOf(s[1..], c)
      case None => None
      case Some(k) => assert s[1..][..k] == s[1..k + 1]; Some(k + 1)
  }

  /** The first occurrence is the one `IndexOf` finds. */
  lemma IndexOfFirst(s: string, c: char, i: nat)
    requires i < |s| && s[i] == c && c !in s[..i]
    ensures IndexOf(s, c) == Some(i)
  {
    assert s[i] in s;
    var j := IndexOf(s, c).value;
    assert forall m :: 0 <= m < i ==> s[m] != c by {
      forall m | 0 <= m < i ensures s[m] != c { assert s[..i][m] == s[m]; }
    }
    assert forall m :: 0 <= m < j ==> s[m] != c by {
      forall m | 0 <= m < j ensures s[m] != c { assert s[..j][m] == s[m]; }
    }
  }

  // ---------------------------------------------------------------------------
  // Trimming (strings.TrimSpace)
  // ---------------------------------------------------------------------------

  /** The first index at or after `i` that does not hold white space, or `|s|`. */
  function SkipSpaceForward(s: string, i: nat): (j: nat)
    requires i <= |s|
    ensures i <= j <= |s|
    ensures forall k :: i <= k < j ==> IsSpace(s[k])
    ensures j < |s| ==> !IsSpace(s[j])
    decreases |s| - i
  {
    if i < |s| && IsSpace(s[i]) then SkipSpaceForward(s, i + 1) else i
  }

  /** The least `k` in `lo..j` such that `s[k..j]` is all white space. */
  function SkipSpaceBackward(s: string, lo: nat, j: nat): (k: nat)
    requires lo <= j <= |s|
    ensures lo <= k <= j
    ensures forall m :: k <= m < j ==> IsSpace(s[m])
    ensures k > lo ==> !IsSpace(s[k - 1])
    decreases j
  {
    if j > lo && IsSpace(s[j - 1]) then SkipSpaceBackward(s, lo, j - 1) else j
  }

  /** True of a string that starts and ends with a non-space rune, or is empty. */
  predicate IsTrimmed(s: string)
  {
    s == [] || (!IsSpace(s[0]) && !IsSpace(s[|s| - 1]))
  }

  /** `strings.TrimSpace`: the longest middle part that neither starts nor ends
      with white space (see TrimSpaceParts for what is cut off). */
  function TrimSpace(s: string): (r: string)
    ensures IsTrimmed(r)
    ensures r == [] <==> AllSpace(s)
  {
    var i := SkipSpaceForward(s, 0);
    var j := SkipSpaceBackward(s, i, |s|);
    assert i < j ==> s[i..j][0] == s[i] && s[i..j][j - i - 1] == s[j - 1];
    assert AllSpace(s) ==> i == |s| by {
      if i < |s| { assert IsSpace(s[i]) ==> !AllSpace(s); }
    }
    s[i..j]
  }

  /** Trimming cuts off white space only: `s` is the trimmed string with a
      blank prefix and a blank suffix around it. */
  lemma TrimSpaceParts(s: string) returns (a: string, c: string)
    ensures s == a + TrimSpace(s) + c
    ensures AllSpace(a) && AllSpace(c)
  {
    var i := SkipSpaceForward(s, 0);
    var j := SkipSpaceBackward(s, i, |s|);
    a := s[..i];
    c := s[j..];
    assert AllSpace(a) by {
      forall k | 0 <= k < |a| ensures IsSpace(a[k]) { assert a[k] == s[k]; }
    }
    assert AllSpace(c) by {
      forall k | 0 <= k < |c| ensures IsSpace(c[k]) { assert c[k] == s[j + k]; }
    }
    assert s == a + s[i..j] + c;
  }

  /** A rune kind absent from `s` is absent from its trim too. */
  lemma TrimKeepsNone(s: string, p: char -> bool)
    requires NoneSatisfy(s, p)
    ensures NoneSatisfy(TrimSpace(s), p)
  {
    var a, c := TrimSpaceParts(s);
    NoneSatisfyMiddle(a, TrimSpace(s), c, p);
  }

  lemma NoneSatisfyMiddle(a: string, r: string, c: string, p: char -> bool)
    requires NoneSatisfy(a + r + c, p)
    ensures NoneSatisfy(r, p)
  {
    forall k | 0 <= k < |r| ensures !p(r[k]) {
      assert r[k] == (a + r + c)[|a| + k];
    }
  }

  /** A trimmed string is its own trim. */
  lemma TrimSpaceOfTrimmed(s: string)
    requires IsTrimmed(s)
    ensures TrimSpace(s) == s
  {
    if s != [] {
      assert SkipSpaceForward(s, 0) == 0;
      assert SkipSpaceBackward(s, 0, |s|) == |s|;
    }
  }

  // ---------------------------------------------------------------------------
  // Splitting and joining
  // ---------------------------------------------------------------------------

  /** All runes of `s` that satisfy `p`, in order. */
  function Filter(s: string, p: char -> bool): (r: string)
    ensures |r| <= |s|
    ensures forall i :: 0 <= i < |r| ==> p(r[i])
  {
    if s == [] then []
    else (if p(s[0]) then [s[0]] else []) + Filter(s[1..], p)
  }

  predicate NoneSatisfy(s: string, p: char -> bool)
  {
    forall i :: 0 <= i < |s| ==> !p(s[i])
  }

  /** The pieces of `s` between the runes satisfying `sep`, empty pieces
      included: `strings.Split` when `sep` is one rune, and the raw material of
      `strings.FieldsFunc` and of `\w+` matching. */
  function SplitWhere(s: string, sep: char -> bool): (parts: seq<string>)
    ensures |parts| == |Filter(s, sep)| + 1
    ensures forall k :: 0 <= k < |parts| ==> NoneSatisfy(parts[k], sep)
    decreases |s|
  {
    if s == [] then [[]]
    else
      var rest := SplitWhere(s[1..], sep);
      if sep(s[0]) then [[]] + rest
      else [[s[0]] + rest[0]] + rest[1..]
  }

  /** A string without separators is its own single piece. */
  lemma {:induction false} SplitWhereNoSeparator(s: string, sep: char -> bool)
    requires NoneSatisfy(s, sep)
    ensures SplitWhere(s, sep) == [s]
    decreases |s|
  {
    if s != [] {
      SplitWhereNoSeparator(s[1..], sep);
      assert [s[0]] + s[1..] == s;
    }
  }

  /** A leading separator opens with an empty piece. */
  lemma SplitWhereLeadingSeparator(c: char, s: string, sep: char -> bool)
    requires sep(c)
    ensures SplitWhere([c] + s, sep) == [[]] + SplitWhere(s, sep)
  {
    assert ([c] + s)[1..] == s;
  }

  /** The first separator closes the first piece: what precedes it is that piece. */
  lemma {:induction false} SplitWhereAtFirst(a: string, c: char, b: string, sep: char -> bool)
    requires NoneSatisfy(a, sep) && sep(c)
    ensures SplitWhere(a + [c] + b, sep) == [a] + SplitWhere(b, sep)
    decreases |a|
  {
    if a == [] {
      SplitWhereLeadingSeparator(c, b, sep);
    } else {
      SplitWhereAtFirst(a[1..], c, b, sep);
      assert (a + [c] + b)[1..] == a[1..] + [c] + b;
      assert [a[0]] + a[1..] == a;
    }
  }

  /** Joining one more piece in front. */
  lemma JoinCons(x: string, parts: seq<string>, sep: string)
    ensures Join([x] + parts, sep) == if parts == [] then x else x + sep + Join(parts, sep)
  {
    assert ([x] + parts)[1..] == parts;
  }

  /** `strings.Join`. */
  function Join(parts: seq<string>, sep: string): (r: string)
    decreases |parts|
  {
    if parts == [] then []
    else if |parts| == 1 then parts[0]
    else parts[0] + sep + Join(parts[1..], sep)
  }

  /** Puts the pieces back, with the `k`-th separator rune after the `k`-th piece. */
  function Rejoin(parts: seq<string>, seps: string): string
    requires |parts| == |seps| + 1
    decreases |seps|
  {
    if seps == [] then parts[0]
    else parts[0] + [seps[0]] + Rejoin(parts[1..], seps[1..])
  }

  /** Splitting loses nothing: the pieces and the separator runes give `s` back. */
  lemma {:induction false} RejoinSplitWhere(s: string, sep: char -> bool)
    ensures Rejoin(SplitWhere(s, sep), Filter(s, sep)) == s
    decreases |s|
  {
    if s != [] {
      var rest := SplitWhere(s[1..], sep);
      var seps := Filter(s[1..], sep);
      RejoinSplitWhere(s[1..], sep);
      if sep(s[0]) {
        assert Filter(s, sep) == [s[0]] + seps;
        RejoinEmptyFirst(s[0], rest, seps);
      } else {
        assert Filter(s, sep) == seps;
        RejoinExtendFirst(s[0], rest, seps);
      }
      assert [s[0]] + s[1..] == s;
    }
  }

  /** A separator at the front adds an empty first piece. */
  lemma RejoinEmptyFirst(c: char, rest: seq<string>, seps: string)
    requires |rest| == |seps| + 1
    ensures Rejoin([[]] + rest, [c] + seps) == [c] + Rejoin(rest, seps)
  {
    assert ([[]] + rest)[1..] == rest;
    assert ([c] + seps)[1..] == seps;
  }

  /** A rune that is no separator extends the first piece. */
  lemma RejoinExtendFirst(c: char, rest: seq<string>, seps: string)
    requires |rest| == |seps| + 1
    ensures Rejoin([[c] + rest[0]] + rest[1..], seps) == [c] + Rejoin(rest, seps)
  {
    if seps != [] {
      assert ([[c] + rest[0]] + rest[1..])[1..] == rest[1..];
    }
  }

  /** With a one-rune separator, `strings.Join(strings.Split(s, d), d) == s`. */
  lemma {:induction false} JoinSplitWhere(s: string, sep: char -> bool, d: char)
    requires forall c :: sep(c) <==> c == d
    ensures Join(SplitWhere(s, sep), [d]) == s
    decreases |s|
  {
    if s != [] {
      var rest := SplitWhere(s[1..], sep);
      JoinSplitWhere(s[1..], sep, d);
      if sep(s[0]) {
        assert s[0] == d;
        JoinEmptyFirst(d, rest);
      } else {
        JoinExtendFirst(s[0], rest, [d]);
      }
      assert [s[0]] + s[1..] == s;
    }
  }

  /** An empty first piece puts the separator in front. */
  lemma JoinEmptyFirst(d: char, rest: seq<string>)
    requires rest != []
    ensures Join([[]] + rest, [d]) == [d] + Join(rest, [d])
  {
    assert ([[]] + rest)[1..] == rest;
  }

  /** Extending the first piece extends the joined text at its front. */
  lemma JoinExtendFirst(c: char, rest: seq<string>, sep: string)
    requires rest != []
    ensures Join([[c] + rest[0]] + rest[1..], sep) == [c] + Join(rest, sep)
  {
    if |rest| > 1 {
      assert ([[c] + rest[0]] + rest[1..])[1..] == rest[1..];
    }
  }

  /** The non-empty elements of `parts`, in order. */
  function NonEmpty(parts: seq<string>): (r: seq<string>)
    ensures |r| <= |parts|
    ensures forall k :: 0 <= k < |r| ==> r[k] != [] && r[k] in parts
  {
    if parts == [] then []
    else (if parts[0] == [] then [] else [parts[0]]) + NonEmpty(parts[1..])
  }

  function Concat(parts: seq<string>): string
  {
    if parts == [] then [] else parts[0] + Concat(parts[1..])
  }

  /** Non-empty pieces concatenate to the empty string only when there are none. */
  lemma ConcatOfNonEmptyIsEmpty(parts: seq<string>)
    requires forall k :: 0 <= k < |parts| ==> parts[k] != []
    ensures Concat(parts) == [] <==> parts == []
  {
    if parts != [] {
      assert |Concat(parts)| >= |parts[0]|;
    }
  }

  /** Dropping empty pieces does not change their concatenation. */
  lemma {:induction false} ConcatNonEmpty(parts: seq<string>)
    ensures Concat(NonEmpty(parts)) == Concat(parts)
  {
    if parts != [] {
      ConcatNonEmpty(parts[1..]);
      if parts[0] == [] {
        assert NonEmpty(parts) == NonEmpty(parts[1..]);
      } else {
        assert NonEmpty(parts) == [parts[0]] + NonEmpty(parts[1..]);
      }
    }
  }

  /** The pieces of a split, glued together, are exactly the runes that are not
      separators (`keep` names the complement of `sep`). */
  lemma {:induction false} ConcatSplitWhere(s: string, sep: char -> bool, keep: char -> bool)
    requires forall c :: keep(c) <==> !sep(c)
    ensures Concat(SplitWhere(s, sep)) == Filter(s, keep)
    decreases |s|
  {
    if s != [] {
      var rest := SplitWhere(s[1..], sep);
      ConcatSplitWhere(s[1..], sep, keep);
      if sep(s[0]) {
        assert ([[]] + rest)[1..] == rest;
      } else {
        assert ([[s[0]] + rest[0]] + rest[1..])[1..] == rest[1..];
        assert Concat(rest) == rest[0] + Concat(rest[1..]);
      }
    }
  }

  /** Filtering distributes over concatenation. */
  lemma {:induction false} FilterAppend(a: string, b: string, p: char -> bool)
    ensures Filter(a + b, p) == Filter(a, p) + Filter(b, p)
    decreases |a|
  {
    if a == [] {
      assert a + b == b;
    } else {
      assert (a + b)[0] == a[0];
      assert (a + b)[1..] == a[1..] + b;
      FilterAppend(a[1..], b, p);
    }
  }

  /** Nothing survives the filter exactly when no rune satisfies it. */
  lemma {:induction false} FilterEmptyIffNone(s: string, p: char -> bool)
    ensures Filter(s, p) == [] <==> NoneSatisfy(s, p)
    decreases |s|
  {
    if s != [] {
      FilterEmptyIffNone(s[1..], p);
      if NoneSatisfy(s[1..], p) && !p(s[0]) {
        forall i | 0 <= i < |s| ensures !p(s[i]) {
          if i > 0 { assert s[i] == s[1..][i - 1]; }
        }
      }
      if NoneSatisfy(s, p) {
        forall i | 0 <= i < |s| - 1 ensures !p(s[1..][i]) {
          assert s[1..][i] == s[i + 1];
        }
      }
    }
  }

  /** The runes satisfying `p`, piece by piece. */
  function FilterEach(parts: seq<string>, p: char -> bool): string
  {
    if parts == [] then [] else Filter(parts[0], p) + FilterEach(parts[1..], p)
  }

  /** A separator the filter drops leaves only what the pieces contribute. */
  lemma {:induction false} FilterJoin(parts: seq<string>, sep: string, p: char -> bool)
    requires Filter(sep, p) == []
    ensures Filter(Join(parts, sep), p) == FilterEach(parts, p)
    decreases |parts|
  {
    if |parts| == 1 {
      assert FilterEach(parts, p) == Filter(parts[0], p) + FilterEach([], p);
    } else if |parts| > 1 {
      FilterJoin(parts[1..], sep, p);
      FilterAppend(parts[0] + sep, Join(parts[1..], sep), p);
      FilterAppend(parts[0], sep, p);
    }
  }

  /** Joining non-empty pieces starts with the first rune of the first piece and
      ends with the last rune of the last one. */
  lemma {:induction false} JoinEnds(parts: seq<string>, sep: string)
    requires parts != []
    requires forall k :: 0 <= k < |parts| ==> parts[k] != []
    ensures var r := Join(parts, sep);
            var last := parts[|parts| - 1];
            r != [] && r[0] == parts[0][0] && r[|r| - 1] == last[|last| - 1]
    decreases |parts|
  {
    if |parts| > 1 {
      JoinEnds(parts[1..], sep);
      var rest := Join(parts[1..], sep);
      var r := parts[0] + sep + rest;
      assert r[|r| - 1] == rest[|rest| - 1];
      assert parts[1..][|parts| - 2] == parts[|parts| - 1];
    }
  }

  /** Joining pieces and a separator free of `p` gives a string free of `p`. */
  lemma {:induction false} JoinNoneSatisfy(parts: seq<string>, sep: string, p: char -> bool)
    requires NoneSatisfy(sep, p)
    requires forall k :: 0 <= k < |parts| ==> NoneSatisfy(parts[k], p)
    ensures NoneSatisfy(Join(parts, sep), p)
    decreases |parts|
  {
    if |parts| > 1 {
      JoinNoneSatisfy(parts[1..], sep, p);
      var rest := Join(parts[1..], sep);
      var r := parts[0] + sep + rest;
      forall i | 0 <= i < |r| ensures !p(r[i]) {
        if i < |parts[0]| {
          assert r[i] == parts[0][i];
        } else if i < |parts[0]| + |sep| {
          assert r[i] == sep[i - |parts[0]|];
        } else {
          assert r[i] == rest[i - |parts[0]| - |sep|];
        }
      }
    }
  }

  // ---------------------------------------------------------------------------
  // Decimal rendering (fmt's %d on a non-negative int)
  // ---------------------------------------------------------------------------

  predicate IsDigit(c: char) { '0' <= c <= '9' }

  function DigitChar(d: nat): (c: char)
    requires d < 10
    ensures IsDigit(c) && c as int - '0' as int == d
  {
    ('0' as int + d) as char
  }

  function NatToString(n: nat): (s: string)
    ensures s != []
    ensures forall i :: 0 <= i < |s| ==> IsDigit(s[i])
  {
    if n < 10 then [DigitChar(n)] else NatToString(n / 10) + [DigitChar(n % 10)]
  }

  /** Reads a string of decimal digits. */
  function ParseDecimal(s: string): int
    requires forall i :: 0 <= i < |s| ==> IsDigit(s[i])
  {
    if s == [] then 0
    else ParseDecimal(s[..|s| - 1]) * 10 + (s[|s| - 1] as int - '0' as int)
  }

  /** Rendering a number in decimal loses nothing. */
  lemma {:induction false} ParseNatToString(n: nat)
    ensures ParseDecimal(NatToString(n)) == n
  {
    if n >= 10 {
      var s := NatToString(n);
      ParseNatToString(n / 10);
      assert s[..|s| - 1] == NatToString(n / 10);
    }
  }
}
