/**
  The small part of the Java and Android string library the chat client relies on:
  nullable references, string concatenation with `null`, `String.trim`,
  `TextUtils.isEmpty` and `String.compareTo`.

  A Java `String` is modelled as a Dafny `string`, a sequence of Unicode scalar
  values. Where Java looks at UTF-16 code units (`compareTo`), the model encodes
  the string to UTF-16 explicitly and works on the code units.
 */
module JavaLang {

  /** A Java reference that may be `null`. */
  datatype Option<+T> = None | Some(value: T)

  /** The outcome of an operation that either yields a value or fails. */
  datatype Result<+T, +E> = Ok(value: T) | Err(error: E)

  /** What `"" + x` yields in Java for a nullable string `x`: the text `null` for a null reference. */
  function Str(x: Option<string>): (r: string)
    ensures x.Some? ==> r == x.value
    ensures x.None? ==> r == "null"
  {
    match x
    case Some(v) => v
    case None => "null"
  }

  /** `Character` values that `String.trim` strips: every char at or below U+0020. */
  predicate IsTrimmable(c: char) {
    c <= ' '
  }

  /** Number of leading trimmable characters of `s`. */
  function Lead(s: string): (n: nat)
    ensures n <= |s|
    ensures forall k :: 0 <= k < n ==> IsTrimmable(s[k])
    ensures n < |s| ==> !IsTrimmable(s[n])
  {
    if |s| == 0 || !IsTrimmable(s[0]) then 0 else 1 + Lead(s[1..])
  }

  /** Number of trailing trimmable characters of `s`. */
  function Trail(s: string): (n: nat)
    ensures n <= |s|
    ensures forall k :: |s| - n <= k < |s| ==> IsTrimmable(s[k])
    ensures n < |s| ==> !IsTrimmable(s[|s| - 1 - n])
  {
    if |s| == 0 || !IsTrimmable(s[|s| - 1]) then 0 else 1 + Trail(s[..|s| - 1])
  }

  /**
    `String.trim`: first skip the leading characters at or below U+0020, then,
    in what remains, the trailing ones. Surrogate code units lie above U+0020,
    so trimming code units and trimming scalar values agree.
   */
  function Trim(s: string): (r: string)
    ensures Lead(s) + |r| <= |s|
    ensures r == s[Lead(s)..Lead(s) + |r|]
    ensures forall k :: Lead(s) + |r| <= k < |s| ==> IsTrimmable(s[k])
    ensures |r| == 0 <==> forall k :: 0 <= k < |s| ==> IsTrimmable(s[k])
    ensures |r| > 0 ==> !IsTrimmable(r[0]) && !IsTrimmable(r[|r| - 1])
  {
    var st := Lead(s);
    var rest := s[st..];
    rest[..|rest| - Trail(rest)]
  }

  /** `TextUtils.isEmpty` on a non-null string. */
  predicate IsEmpty(s: string): (r: bool)
    ensures r <==> s == ""
  {
    |s| == 0
  }

  /** A string `String.trim` would leave as it is. */
  predicate IsTrimmed(s: string) {
    |s| == 0 || (!IsTrimmable(s[0]) && !IsTrimmable(s[|s| - 1]))
  }

  /** Trimming strips exactly the padding around a trimmed core. */
  lemma {:induction false} TrimOfPadded(a: string, m: string, b: string)
    requires forall k :: 0 <= k < |a| ==> IsTrimmable(a[k])
    requires forall k :: 0 <= k < |b| ==> IsTrimmable(b[k])
    requires |m| > 0 && IsTrimmed(m)
    ensures Trim(a + m + b) == m
  {
    var s := a + m + b;
    LeadOfPadded(a, m + b);
    assert s[|a|..] == m + b;
    TrailOfPadded(m, b);
  }

  lemma {:induction false} LeadOfPadded(a: string, t: string)
    requires forall k :: 0 <= k < |a| ==> IsTrimmable(a[k])
    requires |t| > 0 && !IsTrimmable(t[0])
    ensures Lead(a + t) == |a|
  {
    if |a| > 0 {
      assert (a + t)[1..] == a[1..] + t;
      LeadOfPadded(a[1..], t);
    }
  }

  lemma {:induction false} TrailOfPadded(m: string, b: string)
    requires forall k :: 0 <= k < |b| ==> IsTrimmable(b[k])
    requires |m| > 0 && !IsTrimmable(m[|m| - 1])
    ensures Trail(m + b) == |b|
  {
    if |b| > 0 {
      assert (m + b)[..|m + b| - 1] == m + b[..|b| - 1];
      TrailOfPadded(m, b[..|b| - 1]);
    }
  }

  /** Trimming twice is trimming once. */
  lemma TrimIdempotent(s: string)
    ensures Trim(Trim(s)) == Trim(s)
  {
  }

  // ---------------------------------------------------------------------------
  // String.indexOf

  /** True when `c` does not occur in `s`. */
  predicate Lacks(s: string, c: char) {
    forall k :: 0 <= k < |s| ==> s[k] != c
  }

  /** `s.indexOf(c)`: the index of the first `c` in `s`, or -1 when there is none. */
  function IndexOf(s: string, c: char): (r: int)
    ensures -1 <= r < |s|
    ensures r >= 0 ==> s[r] == c && Lacks(s[..r], c)
    ensures r == -1 ==> Lacks(s, c)
  {
    if |s| == 0 then -1
    else if s[0] == c then 0
    else
      var rest := IndexOf(s[1..], c);
      if rest == -1 then -1 else rest + 1
  }

  /** In `x + [c] + y` with `c` absent from `x`, the first `c` sits right after `x`. */
  lemma {:induction false} IndexOfJoined(x: string, c: char, y: string)
    requires Lacks(x, c)
    ensures IndexOf(x + [c] + y, c) == |x|
  {
    if |x| > 0 {
      assert (x + [c] + y)[1..] == x[1..] + [c] + y;
      IndexOfJoined(x[1..], c, y);
    }
  }

  // ---------------------------------------------------------------------------
  // UTF-16 and String.compareTo

  /** The UTF-16 code units of one scalar value. */
  function EncodeChar(c: char): (u: seq<int>)
    ensures 1 <= |u| <= 2
    ensures forall k :: 0 <= k < |u| ==> 0 <= u[k] < 0x10000
    ensures |u| == 1 <==> c as int < 0x10000
    ensures |u| == 1 ==> !(0xD800 <= u[0] < 0xE000)
    ensures |u| == 2 ==> 0xD800 <= u[0] < 0xDC00 && 0xDC00 <= u[1] < 0xE000
  {
    var n := c as int;
    if n < 0x10000 then [n]
    else [0xD800 + (n - 0x10000) / 0x400, 0xDC00 + (n - 0x10000) % 0x400]
  }

  /** The UTF-16 code units of a string, the representation Java compares. */
  function Utf16(s: string): (u: seq<int>)
    ensures |s| <= |u| <= 2 * |s|
  {
    if |s| == 0 then [] else EncodeChar(s[0]) + Utf16(s[1..])
  }

  /**
    `String.compareTo` on code-unit sequences: the difference of the first pair of
    code units that differ, or else the difference of the lengths.
   */
  function CompareUnits(u: seq<int>, v: seq<int>): int {
    if |u| == 0 || |v| == 0 then |u| - |v|
    else if u[0] != v[0] then u[0] - v[0]
    else CompareUnits(u[1..], v[1..])
  }

  /** `a.compareTo(b)` for Java strings `a` and `b`. */
  function CompareTo(a: string, b: string): (r: int)
    ensures r == 0 <==> a == b
    ensures r < 0 <==> LexLess(Utf16(a), Utf16(b))
  {
    CompareUnitsZero(Utf16(a), Utf16(b));
    CompareUnitsNegative(Utf16(a), Utf16(b));
    Utf16SameIff(a, b);
    CompareUnits(Utf16(a), Utf16(b))
  }

  /**
    The lexicographic order Java documents for `compareTo`, stated independently:
    `u` precedes `v` when they first differ at an index where `u` holds the smaller
    unit, or when `u` is a proper prefix of `v`.
   */
  ghost predicate LexLess(u: seq<int>, v: seq<int>) {
    || (exists k :: 0 <= k < |u| && k < |v| && u[..k] == v[..k] && u[k] < v[k])
    || (|u| < |v| && u == v[..|u|])
  }

  lemma {:induction false} CompareUnitsAntisymmetric(u: seq<int>, v: seq<int>)
    ensures CompareUnits(u, v) == -CompareUnits(v, u)
  {
    if |u| > 0 && |v| > 0 && u[0] == v[0] {
      CompareUnitsAntisymmetric(u[1..], v[1..]);
    }
  }

  lemma {:induction false} CompareUnitsZero(u: seq<int>, v: seq<int>)
    ensures CompareUnits(u, v) == 0 <==> u == v
  {
    if |u| > 0 && |v| > 0 && u[0] == v[0] {
      CompareUnitsZero(u[1..], v[1..]);
      assert u == [u[0]] + u[1..] && v == [v[0]] + v[1..];
    }
  }

  /** A negative `compareTo` result means exactly that the code units are in lexicographic order. */
  lemma {:induction false} CompareUnitsNegative(u: seq<int>, v: seq<int>)
    ensures CompareUnits(u, v) < 0 <==> LexLess(u, v)
  {
    if |u| == 0 {
      assert |v| > 0 ==> u == v[..0];
    } else if |v| == 0 {
      assert !LexLess(u, v);
    } else if u[0] != v[0] {
      if u[0] < v[0] {
        assert u[..0] == v[..0];
      } else if LexLess(u, v) {
        LexLessHead(u, v);
      }
    } else {
      CompareUnitsNegative(u[1..], v[1..]);
      LexLessTail(u, v);
    }
  }

  lemma LexLessHead(u: seq<int>, v: seq<int>)
    requires |u| > 0 && |v| > 0 && LexLess(u, v)
    ensures u[0] <= v[0]
  {
  }

  lemma LexLessTail(u: seq<int>, v: seq<int>)
    requires |u| > 0 && |v| > 0 && u[0] == v[0]
    ensures LexLess(u, v) <==> LexLess(u[1..], v[1..])
  {
    var u', v' := u[1..], v[1..];
    if LexLess(u', v') {
      if exists k :: 0 <= k < |u'| && k < |v'| && u'[..k] == v'[..k] && u'[k] < v'[k] {
        var k :| 0 <= k < |u'| && k < |v'| && u'[..k] == v'[..k] && u'[k] < v'[k];
        assert u[..k + 1] == [u[0]] + u'[..k] && v[..k + 1] == [v[0]] + v'[..k];
        assert u[k + 1] < v[k + 1];
      } else {
        assert u == [u[0]] + u' && v[..|u|] == [v[0]] + v'[..|u'|];
      }
    }
    if LexLess(u, v) {
      if exists k :: 0 <= k < |u| && k < |v| && u[..k] == v[..k] && u[k] < v[k] {
        var k :| 0 <= k < |u| && k < |v| && u[..k] == v[..k] && u[k] < v[k];
        assert k > 0;
        assert u'[..k - 1] == u[1..k] == v[1..k] == v'[..k - 1];
        assert u'[k - 1] < v'[k - 1];
      } else {
        assert |u| < |v| && u == v[..|u|];
        assert u' == v[..|u|][1..] == v[1..|u|] == v'[..|u'|];
      }
    }
  }

  /** Distinct strings have distinct UTF-16 encodings. */
  lemma {:induction false} Utf16Injective(a: string, b: string)
    requires Utf16(a) == Utf16(b)
    ensures a == b
  {
    if |a| == 0 || |b| == 0 {
      assert |Utf16(a)| == 0 <==> |a| == 0;
    } else {
      var ea, eb := EncodeChar(a[0]), EncodeChar(b[0]);
      assert Utf16(a) == ea + Utf16(a[1..]);
      assert Utf16(b) == eb + Utf16(b[1..]);
      assert ea[0] == Utf16(a)[0] == Utf16(b)[0] == eb[0];
      assert |ea| == |eb|;
      if |ea| == 2 {
        assert ea[1] == Utf16(a)[1] == Utf16(b)[1] == eb[1];
      }
      assert ea == eb;
      EncodeCharInjective(a[0], b[0]);
      assert Utf16(a)[|ea|..] == Utf16(a[1..]);
      assert Utf16(b)[|eb|..] == Utf16(b[1..]);
      Utf16Injective(a[1..], b[1..]);
      assert a == [a[0]] + a[1..] && b == [b[0]] + b[1..];
    }
  }

  /** Two strings have the same UTF-16 encoding exactly when they are equal. */
  lemma Utf16SameIff(a: string, b: string)
    ensures Utf16(a) == Utf16(b) <==> a == b
  {
    if Utf16(a) == Utf16(b) {
      Utf16Injective(a, b);
    }
  }

  lemma EncodeCharInjective(c: char, d: char)
    requires EncodeChar(c) == EncodeChar(d)
    ensures c == d
  {
  }

  /** `compareTo` is antisymmetric: swapping the operands negates the result. */
  lemma CompareToAntisymmetric(a: string, b: string)
    ensures CompareTo(a, b) == -CompareTo(b, a)
  {
    CompareUnitsAntisymmetric(Utf16(a), Utf16(b));
  }

}
