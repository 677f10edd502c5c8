/**
 * String operations the application borrows from JavaScript: ASCII case folding,
 * `includes`, capitalisation, decimal rendering of numbers, default string
 * ordering, and `split(", ")` / `join(", ")`.
 */
module Text {
  import opened Wrappers

  // ---------------------------------------------------------------------------
  // Case folding (restricted to ASCII)
  // ---------------------------------------------------------------------------

  predicate IsUpper(c: char) { 'A' <= c <= 'Z' }

  predicate IsLower(c: char) { 'a' <= c <= 'z' }

  function LowerChar(c: char): char {
    if IsUpper(c) then (c as int + 32) as char else c
  }

  function UpperChar(c: char): char {
    if IsLower(c) then (c as int - 32) as char else c
  }

  /** `s.toLowerCase()` on ASCII: each upper-case letter becomes its lower-case counterpart and every
      other character is kept. */
  function Lower(s: string): (r: string)
    ensures |r| == |s|
    ensures forall i :: 0 <= i < |r| ==> !IsUpper(r[i])
    ensures forall i :: 0 <= i < |s| && IsUpper(s[i]) ==> IsLower(r[i]) && r[i] as int == s[i] as int + 32
    ensures forall i :: 0 <= i < |r| && !IsUpper(s[i]) ==> r[i] == s[i]
  {
    seq(|s|, i requires 0 <= i < |s| => LowerChar(s[i]))
  }

  /** Lower-casing twice is lower-casing once. */
  lemma LowerIdempotent(s: string)
    ensures Lower(Lower(s)) == Lower(s)
  {
  }

  // ---------------------------------------------------------------------------
  // Substring search (`includes`)
  // ---------------------------------------------------------------------------

  predicate IsPrefix(p: string, s: string) {
    |p| <= |s| && s[..|p|] == p
  }

  /** `needle` occurs in `hay` starting at index `i`. */
  ghost predicate OccursAt(hay: string, needle: string, i: int) {
    0 <= i && i + |needle| <= |hay| && hay[i..i + |needle|] == needle
  }

  /** `hay.includes(needle)`, written as a scan over the start positions. */
  predicate Contains(hay: string, needle: string)
    decreases |hay|
  {
    IsPrefix(needle, hay) || (|hay| > 0 && Contains(hay[1..], needle))
  }

  /** The scan finds `needle` exactly when it occurs at some position of `hay`. */
  lemma {:induction false} ContainsIffOccurs(hay: string, needle: string)
    ensures Contains(hay, needle) <==> exists i :: OccursAt(hay, needle, i)
    decreases |hay|
  {
    if IsPrefix(needle, hay) {
      assert OccursAt(hay, needle, 0);
    } else if |hay| == 0 {
    } else {
      ContainsIffOccurs(hay[1..], needle);
      if Contains(hay[1..], needle) {
        var i :| OccursAt(hay[1..], needle, i);
        assert hay[1..][i..i + |needle|] == hay[i + 1..i + 1 + |needle|];
        assert OccursAt(hay, needle, i + 1);
      }
      if exists i :: OccursAt(hay, needle, i) {
        var i :| OccursAt(hay, needle, i);
        if i > 0 {
          assert hay[1..][i - 1..i - 1 + |needle|] == hay[i..i + |needle|];
          assert OccursAt(hay[1..], needle, i - 1);
        }
      }
    }
  }

  /** The empty term occurs in every string. */
  lemma ContainsEmpty(hay: string)
    ensures Contains(hay, "")
  {
    assert hay[..0] == "";
  }

  /** The search test of StudentList.tsx and CourseLibrary.tsx:
      `field.toLowerCase().includes(term.toLowerCase())`. */
  predicate MatchesTerm(field: string, term: string) {
    Contains(Lower(field), Lower(term))
  }

  /** An empty search term matches every field. */
  lemma EmptyTermMatches(field: string)
    ensures MatchesTerm(field, "")
  {
    ContainsEmpty(Lower(field));
  }

  /** The search ignores ASCII case on both sides: two terms that lower-case alike match the same
      fields, and two fields that lower-case alike are matched by the same terms. */
  lemma CaseInsensitive(field: string, field': string, t: string, u: string)
    requires Lower(t) == Lower(u) && Lower(field) == Lower(field')
    ensures MatchesTerm(field, t) <==> MatchesTerm(field', u)
  {
  }

  /** A field matches its own text, as written and lower-cased. */
  lemma {:induction false} FieldMatchesItself(field: string)
    ensures MatchesTerm(field, field)
    ensures MatchesTerm(field, Lower(field))
  {
    LowerIdempotent(field);
    assert Lower(field)[..|Lower(field)|] == Lower(field);
  }

  // ---------------------------------------------------------------------------
  // Capitalisation (`s.charAt(0).toUpperCase() + s.slice(1)`)
  // ---------------------------------------------------------------------------

  /** Upper-cases the first character only; the empty string stays empty. */
  function Capitalize(s: string): (r: string)
    ensures |r| == |s|
    ensures |s| > 0 ==> !IsLower(r[0]) && r[1..] == s[1..]
    ensures |s| > 0 && IsLower(s[0]) ==> IsUpper(r[0]) && r[0] as int == s[0] as int - 32
    ensures |s| > 0 && !IsLower(s[0]) ==> r == s
  {
    if |s| == 0 then "" else [UpperChar(s[0])] + s[1..]
  }

  /** Capitalising changes case only: lower-cased, the result is the lower-cased input. */
  lemma {:induction false} CapitalizeChangesCaseOnly(s: string)
    ensures Lower(Capitalize(s)) == Lower(s)
  {
    if |s| > 0 {
      var r := Capitalize(s);
      forall i | 0 <= i < |s|
        ensures Lower(r)[i] == Lower(s)[i]
      {
        if i > 0 {
          assert r[i] == s[i];
        }
      }
    }
  }

  // ---------------------------------------------------------------------------
  // Decimal rendering (`n.toString()`) and its inverse
  // ---------------------------------------------------------------------------

  predicate IsDigit(c: char) { '0' <= c <= '9' }

  predicate AllDigits(s: string) {
    forall i :: 0 <= i < |s| ==> IsDigit(s[i])
  }

  function DigitChar(d: nat): (c: char)
    requires d < 10
    ensures IsDigit(c)
  {
    ('0' as int + d) as char
  }

  function DigitValue(c: char): (d: nat)
    requires IsDigit(c)
    ensures d < 10
  {
    c as int - '0' as int
  }

  /** The decimal numeral of `n`, most significant digit first, without leading zeros. */
  function NatToString(n: nat): (r: string)
    ensures |r| >= 1 && AllDigits(r)
    ensures |r| > 1 ==> r[0] != '0'
    decreases n
  {
    if n < 10 then [DigitChar(n)] else NatToString(n / 10) + [DigitChar(n % 10)]
  }

  /** Reads a string of digits as a decimal number. */
  function ParseNat(s: string): nat
    requires AllDigits(s)
    decreases |s|
  {
    if |s| == 0 then 0 else ParseNat(s[..|s| - 1]) * 10 + DigitValue(s[|s| - 1])
  }

  /** Reading back a rendered number gives the number. */
  lemma {:induction false} ParseNatToString(n: nat)
    ensures ParseNat(NatToString(n)) == n
    decreases n
  {
    var r := NatToString(n);
    if n >= 10 {
      ParseNatToString(n / 10);
      assert r[..|r| - 1] == NatToString(n / 10);
    }
  }

  /** Distinct numbers have distinct numerals. */
  lemma NatToStringInjective(a: nat, b: nat)
    ensures NatToString(a) == NatToString(b) ==> a == b
  {
    ParseNatToString(a);
    ParseNatToString(b);
  }

  /** `n.toString()` for an integer, with a leading minus sign when negative. */
  function IntToString(n: int): (r: string)
    ensures |r| >= 1
    ensures n >= 0 ==> r == NatToString(n)
    ensures n < 0 ==> r[0] == '-' && r[1..] == NatToString(-n)
  {
    if n >= 0 then NatToString(n) else "-" + NatToString(-n)
  }

  /** Distinct integers render differently. */
  lemma IntToStringInjective(a: int, b: int)
    ensures IntToString(a) == IntToString(b) ==> a == b
  {
    if IntToString(a) == IntToString(b) {
      if a >= 0 && b >= 0 {
        NatToStringInjective(a, b);
      } else if a < 0 && b < 0 {
        assert IntToString(a)[1..] == IntToString(b)[1..];
        NatToStringInjective(-a, -b);
      }
    }
  }

  // ---------------------------------------------------------------------------
  // Default string order
  // ---------------------------------------------------------------------------

  /** Lexicographic order on Unicode code points. JavaScript's `<` and the default `sort()` compare
      UTF-16 code units instead; the two orders agree on strings without characters above U+FFFF
      (BmpOrderAgrees) and can differ otherwise (SurrogateOrderDiffers). */
  predicate LexLe(a: string, b: string)
    decreases |a|
  {
    |a| == 0 || (|b| > 0 && (a[0] < b[0] || (a[0] == b[0] && LexLe(a[1..], b[1..]))))
  }

  lemma {:induction false} LexLeTotal(a: string, b: string)
    ensures LexLe(a, b) || LexLe(b, a)
    decreases |a|
  {
    if |a| > 0 && |b| > 0 && a[0] == b[0] {
      LexLeTotal(a[1..], b[1..]);
    }
  }

  lemma {:induction false} LexLeTransitive(a: string, b: string, c: string)
    requires LexLe(a, b) && LexLe(b, c)
    ensures LexLe(a, c)
    decreases |a|
  {
    if |a| > 0 && a[0] == b[0] && b[0] == c[0] {
      LexLeTransitive(a[1..], b[1..], c[1..]);
    }
  }

  lemma {:induction false} LexLeAntisymmetric(a: string, b: string)
    requires LexLe(a, b) && LexLe(b, a)
    ensures a == b
    decreases |a|
  {
    if |a| > 0 {
      LexLeAntisymmetric(a[1..], b[1..]);
      assert a == [a[0]] + a[1..];
      assert b == [b[0]] + b[1..];
    }
  }

  /** The UTF-16 code units of one character: itself below U+10000, else a surrogate pair. */
  function CodeUnits(c: char): (u: seq<int>)
    ensures c as int < 0x1_0000 ==> u == [c as int]
    ensures c as int >= 0x1_0000 ==> |u| == 2 && 0xD800 <= u[0] < 0xDC00 && 0xDC00 <= u[1] < 0xE000
  {
    var n := c as int;
    if n < 0x1_0000 then [n] else [0xD800 + (n - 0x1_0000) / 0x400, 0xDC00 + (n - 0x1_0000) % 0x400]
  }

  /** A JavaScript string: the UTF-16 encoding of the text. */
  function Utf16(s: string): seq<int>
    decreases |s|
  {
    if |s| == 0 then [] else CodeUnits(s[0]) + Utf16(s[1..])
  }

  /** `a <= b` in JavaScript's string comparison: lexicographic on code units. */
  predicate UnitsLe(a: seq<int>, b: seq<int>)
    decreases |a|
  {
    |a| == 0 || (|b| > 0 && (a[0] < b[0] || (a[0] == b[0] && UnitsLe(a[1..], b[1..]))))
  }

  /** Every character lies in the Basic Multilingual Plane, so it is one code unit. */
  predicate InBmp(s: string) {
    forall k :: 0 <= k < |s| ==> s[k] as int < 0x1_0000
  }

  /** Without characters above U+FFFF, the code-point order is JavaScript's code-unit order. */
  lemma {:induction false} BmpOrderAgrees(a: string, b: string)
    requires InBmp(a) && InBmp(b)
    ensures LexLe(a, b) <==> UnitsLe(Utf16(a), Utf16(b))
    decreases |a|
  {
    if |a| > 0 && |b| > 0 {
      assert Utf16(a) == [a[0] as int] + Utf16(a[1..]);
      assert Utf16(b) == [b[0] as int] + Utf16(b[1..]);
      assert InBmp(a[1..]) by { forall k | 0 <= k < |a[1..]| ensures a[1..][k] as int < 0x1_0000 { assert a[1..][k] == a[k + 1]; } }
      assert InBmp(b[1..]) by { forall k | 0 <= k < |b[1..]| ensures b[1..][k] as int < 0x1_0000 { assert b[1..][k] == b[k + 1]; } }
      BmpOrderAgrees(a[1..], b[1..]);
      assert ([a[0] as int] + Utf16(a[1..]))[1..] == Utf16(a[1..]);
      assert ([b[0] as int] + Utf16(b[1..]))[1..] == Utf16(b[1..]);
    } else if |a| > 0 {
      assert |Utf16(a)| > 0 && Utf16(b) == [];
    }
  }

  /** The orders differ across the surrogate range: U+FF5E precedes U+1F600 by code point, but its
      code unit 0xFF5E follows the surrogate 0xD83D that starts U+1F600. */
  lemma SurrogateOrderDiffers()
    ensures LexLe("\U{FF5E}", "\U{1F600}") && !LexLe("\U{1F600}", "\U{FF5E}")
    ensures UnitsLe(Utf16("\U{1F600}"), Utf16("\U{FF5E}")) && !UnitsLe(Utf16("\U{FF5E}"), Utf16("\U{1F600}"))
  {
    assert Utf16("\U{FF5E}") == [0xFF5E];
    assert Utf16("\U{1F600}") == [0xD83D, 0xDE00];
  }

  // ---------------------------------------------------------------------------
  // `text.split(", ")` and `items.join(", ")`
  // ---------------------------------------------------------------------------

  const Separator: string := ", "

  /** The separator `", "` starts at index `j` of `s`. */
  predicate SepAt(s: string, j: int) {
    0 <= j && j + 1 < |s| && s[j] == ',' && s[j + 1] == ' '
  }

  ghost predicate HasSeparator(s: string) {
    exists j :: SepAt(s, j)
  }

  /** The index of the first separator in `s`, if any. */
  function FindSeparator(s: string): (r: Option<nat>)
    ensures r.Some? ==> SepAt(s, r.value)
    ensures r.Some? ==> forall j :: 0 <= j < r.value ==> !SepAt(s, j)
    ensures r.None? ==> forall j :: !SepAt(s, j)
    decreases |s|
  {
    if |s| < 2 then None
    else if s[0] == ',' && s[1] == ' ' then Some(0)
    else
      match FindSeparator(s[1..])
      case None =>
        assert forall j :: SepAt(s, j) ==> j >= 1 && SepAt(s[1..], j - 1);
        None
      case Some(i) =>
        assert forall j :: 1 <= j <= i ==> (SepAt(s, j) ==> SepAt(s[1..], j - 1));
        Some(i + 1)
  }

  /** `s.split(", ")`: the pieces between separators, left to right; never empty. */
  function Split(s: string): (r: seq<string>)
    ensures |r| >= 1
    decreases |s|
  {
    match FindSeparator(s)
    case None => [s]
    case Some(i) => [s[..i]] + Split(s[i + 2..])
  }

  /** `items.join(", ")`. */
  function Join(items: seq<string>): string
    decreases |items|
  {
    if |items| == 0 then ""
    else if |items| == 1 then items[0]
    else items[0] + Separator + Join(items[1..])
  }

  /** Joining the pieces of a split gives back the text: no character is lost. */
  lemma {:induction false} JoinSplit(s: string)
    ensures Join(Split(s)) == s
    decreases |s|
  {
    match FindSeparator(s)
    case None =>
    case Some(i) =>
      var rest := Split(s[i + 2..]);
      JoinSplit(s[i + 2..]);
      assert Split(s) == [s[..i]] + rest;
      assert (([s[..i]] + rest)[1..]) == rest;
      assert Join(Split(s)) == s[..i] + Separator + s[i + 2..];
      assert s == s[..i] + Separator + s[i + 2..];
  }

  /** After an item free of separators, the first separator is the one the join inserted. */
  lemma FirstSeparatorAfterItem(item: string, rest: string)
    requires !HasSeparator(item)
    ensures FindSeparator(item + Separator + rest) == Some(|item|)
  {
    var t := item + Separator + rest;
    assert SepAt(t, |item|);
    forall j | 0 <= j < |item|
      ensures !SepAt(t, j)
    {
      if j + 1 < |item| {
        assert !SepAt(item, j);
      }
    }
  }

  /** Splitting at the separator after a separator-free item yields that item, then the rest's pieces. */
  lemma SplitAfterItem(item: string, rest: string)
    requires !HasSeparator(item)
    ensures Split(item + Separator + rest) == [item] + Split(rest)
  {
    var t := item + Separator + rest;
    FirstSeparatorAfterItem(item, rest);
    assert t[..|item|] == item;
    assert t[|item| + 2..] == rest;
  }

  /** Splitting a join gives back a non-empty list whose items hold no separator. */
  lemma {:induction false} SplitJoin(items: seq<string>)
    requires |items| >= 1
    requires forall k :: 0 <= k < |items| ==> !HasSeparator(items[k])
    ensures Split(Join(items)) == items
    decreases |items|
  {
    if |items| == 1 {
      assert FindSeparator(items[0]) == None;
    } else {
      var tail := items[1..];
      assert Join(items) == items[0] + Separator + Join(tail);
      SplitAfterItem(items[0], Join(tail));
      forall k | 0 <= k < |tail|
        ensures !HasSeparator(tail[k])
      {
        assert tail[k] == items[k + 1];
      }
      SplitJoin(tail);
      assert items == [items[0]] + tail;
    }
  }

  /** The empty list does not survive the round trip: it comes back as one empty item. */
  lemma SplitJoinEmpty()
    ensures Split(Join([])) == [""]
  {
  }
}
