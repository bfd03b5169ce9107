/** Shared vocabulary: optional values, order-preserving filtering and counting,
    and the few JavaScript string operations the list views rely on
    (`trim`, `toLowerCase`, `includes`, `String(n)`). */
module Common {

  datatype Option<T> = None | Some(value: T)

  // ---------------------------------------------------------------------------
  // Filtering (Array.prototype.filter, a SQL WHERE clause) and counting
  // ---------------------------------------------------------------------------

  /** The elements of `s` that satisfy `p`, in their original order. */
  function Filter<T(==,!new)>(s: seq<T>, p: T -> bool): (r: seq<T>)
    ensures |r| <= |s|
    ensures forall x :: x in r <==> x in s && p(x)
    ensures multiset(r) <= multiset(s)
  {
    if s == [] then []
    else
      var rest := Filter(s[1..], p);
      assert s == [s[0]] + s[1..];
      assert multiset(s) == multiset{s[0]} + multiset(s[1..]);
      if p(s[0]) then [s[0]] + rest else rest
  }

  /** `f` applied to each element of `s`, in order (JavaScript's `map`). */
  function MapSeq<A, B>(s: seq<A>, f: A -> B): (r: seq<B>)
    ensures |r| == |s|
    ensures forall i :: 0 <= i < |s| ==> r[i] == f(s[i])
  {
    if s == [] then [] else [f(s[0])] + MapSeq(s[1..], f)
  }

  /** Filtering distributes over concatenation: the kept elements of `a + b`
      are those of `a` followed by those of `b` (order is preserved). */
  lemma {:induction false} FilterConcat<T(!new)>(a: seq<T>, b: seq<T>, p: T -> bool)
    ensures Filter(a + b, p) == Filter(a, p) + Filter(b, p)
  {
    if a == [] {
      assert a + b == b;
    } else {
      var x, rest := a[0], a[1..];
      var c := if p(x) then [x] else [];
      assert a == [x] + rest;
      calc {
        Filter(a + b, p);
        { AppendAssoc([x], rest, b); }
        Filter([x] + (rest + b), p);
        { FilterCons(x, rest + b, p); }
        c + Filter(rest + b, p);
        { FilterConcat(rest, b, p); }
        c + (Filter(rest, p) + Filter(b, p));
        { AppendAssoc(c, Filter(rest, p), Filter(b, p)); }
        (c + Filter(rest, p)) + Filter(b, p);
        { FilterCons(x, rest, p); }
        Filter(a, p) + Filter(b, p);
      }
    }
  }

  /** Concatenation is associative. */
  lemma AppendAssoc<T>(a: seq<T>, b: seq<T>, c: seq<T>)
    ensures (a + b) + c == a + (b + c)
  {
  }

  /** Dropping the first `|a|` elements of `a + b` leaves `b`. */
  lemma DropPrefix<T>(a: seq<T>, b: seq<T>)
    ensures (a + b)[|a|..] == b
  {
  }

  /** Filtering a list with a first element decides that element, then filters the rest. */
  lemma FilterCons<T(!new)>(x: T, s: seq<T>, p: T -> bool)
    ensures Filter([x] + s, p) == (if p(x) then [x] else []) + Filter(s, p)
  {
    assert ([x] + s)[1..] == s;
  }

  /** Two filter passes keep exactly what one pass with their conjunction keeps. */
  lemma {:induction false} FilterTwice<T(!new)>(s: seq<T>, p: T -> bool, q: T -> bool, both: T -> bool)
    requires forall x :: both(x) == (p(x) && q(x))
    ensures Filter(Filter(s, p), q) == Filter(s, both)
  {
    if s != [] {
      FilterTwice(s[1..], p, q, both);
    }
  }

  /** Filtering only depends on what the predicate says about the elements present. */
  lemma {:induction false} FilterExt<T(!new)>(s: seq<T>, p: T -> bool, q: T -> bool)
    requires forall x :: x in s ==> p(x) == q(x)
    ensures Filter(s, p) == Filter(s, q)
  {
    if s != [] {
      FilterExt(s[1..], p, q);
    }
  }

  /** A predicate that holds of every element excludes nothing. */
  lemma {:induction false} FilterKeepsAll<T(!new)>(s: seq<T>, p: T -> bool)
    requires forall x :: x in s ==> p(x)
    ensures Filter(s, p) == s
  {
    if s != [] {
      FilterKeepsAll(s[1..], p);
    }
  }

  /** A stronger predicate never keeps more elements. */
  lemma {:induction false} FilterCountMono<T(!new)>(s: seq<T>, p: T -> bool, q: T -> bool)
    requires forall x :: p(x) ==> q(x)
    ensures |Filter(s, p)| <= |Filter(s, q)|
  {
    if s != [] {
      FilterCountMono(s[1..], p, q);
    }
  }

  /** A stronger predicate keeps strictly fewer elements when some element of
      `s` satisfies the weaker one only. */
  lemma {:induction false} FilterCountStrict<T(!new)>(s: seq<T>, p: T -> bool, q: T -> bool, y: T)
    requires forall x :: p(x) ==> q(x)
    requires y in s && q(y) && !p(y)
    ensures |Filter(s, p)| < |Filter(s, q)|
  {
    if s[0] == y {
      FilterCountMono(s[1..], p, q);
    } else {
      assert y in s[1..];
      FilterCountStrict(s[1..], p, q, y);
    }
  }

  /** Counting under two predicates that never hold together adds up. */
  lemma {:induction false} FilterCountDisjoint<T(!new)>(s: seq<T>, p: T -> bool, q: T -> bool, either: T -> bool)
    requires forall x :: !(p(x) && q(x))
    requires forall x :: either(x) == (p(x) || q(x))
    ensures |Filter(s, either)| == |Filter(s, p)| + |Filter(s, q)|
  {
    if s != [] {
      FilterCountDisjoint(s[1..], p, q, either);
    }
  }

  // ---------------------------------------------------------------------------
  // JavaScript string helpers
  // ---------------------------------------------------------------------------

  /** The characters `String.prototype.trim` removes: ECMAScript WhiteSpace and
      LineTerminator code points. */
  predicate IsSpace(c: char)
  {
    c == ' ' || c == '\t' || c == '\n' || c == '\r' || c == '\U{000B}' || c == '\U{000C}' ||
    c == '\U{00A0}' || c == '\U{1680}' || ('\U{2000}' <= c <= '\U{200A}') ||
    c == '\U{2028}' || c == '\U{2029}' || c == '\U{202F}' || c == '\U{205F}' ||
    c == '\U{3000}' || c == '\U{FEFF}'
  }

  /** `s` without its leading white space. */
  function TrimStart(s: string): (r: string)
    ensures |r| <= |s| && r == s[|s| - |r|..]
    ensures r == [] || !IsSpace(r[0])
    ensures forall i :: 0 <= i < |s| - |r| ==> IsSpace(s[i])
  {
    if s != [] && IsSpace(s[0]) then TrimStart(s[1..]) else s
  }

  /** `s` without its trailing white space. */
  function TrimEnd(s: string): (r: string)
    ensures |r| <= |s| && r == s[..|r|]
    ensures r == [] || !IsSpace(r[|r| - 1])
    ensures forall i :: |r| <= i < |s| ==> IsSpace(s[i])
  {
    if s != [] && IsSpace(s[|s| - 1]) then TrimEnd(s[..|s| - 1]) else s
  }

  /** `r` is `s` from position `i` on, with only white space cut off before
      and after it. */
  predicate CutFrom(s: string, r: string, i: int)
  {
    0 <= i <= |s| - |r| && r == s[i..i + |r|] &&
    (forall k :: 0 <= k < i ==> IsSpace(s[k])) &&
    (forall k :: i + |r| <= k < |s| ==> IsSpace(s[k]))
  }

  /** `String.prototype.trim`: no white space is left at either end (see
      `TrimKeepsMiddle` for what is kept). */
  function Trim(s: string): (r: string)
    ensures |r| <= |s|
    ensures r == [] || (!IsSpace(r[0]) && !IsSpace(r[|r| - 1]))
  {
    var t := TrimStart(s);
    var r := TrimEnd(t);
    assert r != [] ==> r[0] == t[0];
    r
  }

  /** What `trim` keeps is a contiguous part of the string, with only white
      space cut off before and after it. */
  lemma TrimKeepsMiddle(s: string)
    ensures exists i :: CutFrom(s, Trim(s), i)
  {
    var t := TrimStart(s);
    assert Trim(s) == TrimEnd(t);
    TrimCut(s, t, TrimEnd(t));
    assert CutFrom(s, Trim(s), |s| - |t|);
  }

  lemma TrimCut(s: string, t: string, r: string)
    requires |t| <= |s| && t == s[|s| - |t|..]
    requires |r| <= |t| && r == t[..|r|]
    requires forall k :: 0 <= k < |s| - |t| ==> IsSpace(s[k])
    requires forall k :: |r| <= k < |t| ==> IsSpace(t[k])
    ensures CutFrom(s, r, |s| - |t|)
  {
    var i := |s| - |t|;
    forall k | i + |r| <= k < |s|
      ensures IsSpace(s[k])
    {
      assert s[k] == t[k - i];
    }
  }

  /** Every character is white space (the empty string included). */
  predicate IsBlank(s: string)
  {
    forall i :: 0 <= i < |s| ==> IsSpace(s[i])
  }

  /** A string's trim is empty (so `if (s.trim())` does not fire) exactly when
      the string is blank. */
  lemma TrimEmptyIffBlank(s: string)
    ensures Trim(s) == [] <==> IsBlank(s)
  {
    var t := TrimStart(s);
    var r := TrimEnd(t);
    var d := |s| - |t|;
    assert Trim(s) == r;
    if r == [] {
      assert t == [];
    } else {
      assert r[0] == t[0] == s[d];
    }
  }

  /** An upper-case letter whose lower-case form is one character: the ASCII
      letters, the Latin-1 letters from À to Þ (× is not a letter), and the
      Turkish Ğ and Ş. Every other character is kept. */
  function LowerChar(c: char): char
  {
    if 'A' <= c <= 'Z' then (c as int + 32) as char
    else if '\U{00C0}' <= c <= '\U{00DE}' && c != '\U{00D7}' then (c as int + 32) as char
    else if c == '\U{011E}' || c == '\U{015E}' then (c as int + 1) as char
    else c
  }

  /** `String.prototype.toLowerCase` for the letters `LowerChar` covers. */
  function Lower(s: string): (r: string)
    ensures |r| == |s|
  {
    seq(|s|, i requires 0 <= i < |s| => LowerChar(s[i]))
  }

  /** Lower-casing twice is lower-casing once. */
  lemma LowerIdempotent(s: string)
    ensures Lower(Lower(s)) == Lower(s)
  {
  }

  /** Lower-casing leaves white space alone, so a blank string stays blank and a
      non-blank one stays non-blank. */
  lemma LowerKeepsBlank(s: string)
    ensures IsBlank(Lower(s)) <==> IsBlank(s)
  {
    var t := Lower(s);
    forall i | 0 <= i < |s|
      ensures IsSpace(t[i]) <==> IsSpace(s[i])
    {
      LowerCharKeepsSpace(s[i]);
    }
  }

  lemma LowerCharKeepsSpace(c: char)
    ensures IsSpace(LowerChar(c)) <==> IsSpace(c)
  {
  }

  /** No character of `s` is white space. */
  predicate NoSpace(s: string)
  {
    forall k :: 0 <= k < |s| ==> !IsSpace(s[k])
  }

  /** Lower-casing neither adds nor removes white space. */
  lemma LowerNoSpace(s: string)
    requires NoSpace(s)
    ensures NoSpace(Lower(s))
  {
    forall k | 0 <= k < |s|
      ensures !IsSpace(Lower(s)[k])
    {
      LowerCharKeepsSpace(s[k]);
    }
  }

  /** A string that starts with white space occurs in no string without any. */
  lemma SpaceLedNotIncluded(h: string, n: string)
    requires NoSpace(h) && n != [] && IsSpace(n[0])
    ensures !Includes(h, n)
  {
  }

  /** `n` occurs in `h` starting at position `i`. */
  predicate OccursAt(h: string, n: string, i: int)
  {
    0 <= i && i + |n| <= |h| && h[i..i + |n|] == n
  }

  /** `String.prototype.includes`: does `n` occur somewhere in `h`? */
  predicate Includes(h: string, n: string)
  {
    exists i | 0 <= i <= |h| - |n| :: OccursAt(h, n, i)
  }

  /** The empty string occurs in every string, as `"abc".includes("")` is true. */
  lemma IncludesEmpty(h: string)
    ensures Includes(h, "")
  {
    assert OccursAt(h, "", 0);
  }

  // ---------------------------------------------------------------------------
  // Decimal rendering of integers (`String(n)`, template literals)
  // ---------------------------------------------------------------------------

  function DigitChar(d: nat): char
    requires d < 10
  {
    "0123456789"[d]
  }

  predicate IsDigit(c: char)
  {
    '0' <= c <= '9'
  }

  /** Decimal digits of `n`, most significant first, without leading zeros. */
  function NatToString(n: nat): (r: string)
    ensures |r| >= 1
    ensures forall i :: 0 <= i < |r| ==> IsDigit(r[i])
    ensures r[0] == '0' ==> n == 0
  {
    if n < 10 then [DigitChar(n)] else NatToString(n / 10) + [DigitChar(n % 10)]
  }

  /** The number a string of decimal digits denotes. */
  function DigitsValue(s: string): nat
    requires forall i :: 0 <= i < |s| ==> IsDigit(s[i])
  {
    if s == [] then 0
    else
      assert IsDigit(s[|s| - 1]);
      DigitsValue(s[..|s| - 1]) * 10 + (s[|s| - 1] as int - '0' as int)
  }

  /** Rendering a natural number and reading the digits back gives the number. */
  lemma {:induction false} NatToStringRoundTrip(n: nat)
    ensures DigitsValue(NatToString(n)) == n
  {
    if n >= 10 {
      var s := NatToString(n);
      assert s[..|s| - 1] == NatToString(n / 10);
      NatToStringRoundTrip(n / 10);
    }
  }

  /** `String(n)` for an integer: a minus sign before the digits of a negative number. */
  function IntToString(n: int): (r: string)
    ensures |r| >= 1
    ensures n < 0 <==> r[0] == '-'
  {
    if n < 0 then "-" + NatToString(-n) else NatToString(n)
  }
}
