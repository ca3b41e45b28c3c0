/**
 * The JavaScript built-ins the modelled code relies on, stated on Dafny values:
 * String.prototype.trim, Array.prototype.join, Array.prototype.splice with a
 * delete count of one, and the truncating remainder operator `%`.
 * Strings are sequences of Unicode scalar values.
 */
module JsBuiltins {

  /** The characters `trim` removes: ECMAScript WhiteSpace and LineTerminator. */
  predicate IsWhiteSpace(c: char) {
    var n := c as int;
    n == 0x09 || n == 0x0A || n == 0x0B || n == 0x0C || n == 0x0D || n == 0x20
    || n == 0xA0 || n == 0x1680 || (0x2000 <= n <= 0x200A)
    || n == 0x2028 || n == 0x2029 || n == 0x202F || n == 0x205F
    || n == 0x3000 || n == 0xFEFF
  }

  /** Every character of `s` is white space. */
  predicate AllWhiteSpace(s: string) {
    s == [] || (IsWhiteSpace(s[0]) && AllWhiteSpace(s[1..]))
  }

  /** A concatenation is all white space exactly when both parts are. */
  lemma {:induction false} AllWhiteSpaceAppend(a: string, b: string)
    ensures AllWhiteSpace(a + b) <==> AllWhiteSpace(a) && AllWhiteSpace(b)
  {
    if a == [] {
      assert a + b == b;
    } else {
      assert (a + b)[1..] == a[1..] + b;
      AllWhiteSpaceAppend(a[1..], b);
    }
  }

  /** `s` without its leading white space: a suffix of `s`. */
  function TrimStart(s: string): (r: string)
    ensures |r| <= |s| && r == s[|s| - |r|..]
    ensures AllWhiteSpace(s[..|s| - |r|])
    ensures r == [] || !IsWhiteSpace(r[0])
  {
    if s != [] && IsWhiteSpace(s[0]) then
      var r := TrimStart(s[1..]);
      assert s[..|s| - |r|][1..] == s[1..][..|s| - 1 - |r|];
      r
    else
      s
  }

  /** `s` without its trailing white space: a prefix of `s`. */
  function TrimEnd(s: string): (r: string)
    ensures |r| <= |s| && r == s[..|r|]
    ensures AllWhiteSpace(s[|r|..])
    ensures r == [] || !IsWhiteSpace(r[|r| - 1])
  {
    if s != [] && IsWhiteSpace(s[|s| - 1]) then
      var r := TrimEnd(s[..|s| - 1]);
      assert s[|r|..] == s[..|s| - 1][|r|..] + [s[|s| - 1]];
      AllWhiteSpaceAppend(s[..|s| - 1][|r|..], [s[|s| - 1]]);
      r
    else
      s
  }

  /** A prefix `r` of a suffix `t` of `s` splits `s` into three pieces. */
  lemma PrefixOfSuffix(s: string, t: string, r: string)
    requires |t| <= |s| && t == s[|s| - |t|..]
    requires |r| <= |t| && r == t[..|r|]
    ensures t == r + t[|r|..]
    ensures s == s[..|s| - |t|] + t
    ensures s == s[..|s| - |t|] + r + t[|r|..]
  {
    assert t == r + t[|r|..];
  }

  /**
   * String.prototype.trim: the input with its leading and trailing white
   * space removed, the prefix TrimEnd keeps of the suffix TrimStart keeps.
   */
  function Trim(s: string): (r: string)
    ensures |r| <= |s|
    ensures r == [] || (!IsWhiteSpace(r[0]) && !IsWhiteSpace(r[|r| - 1]))
    ensures r == [] <==> AllWhiteSpace(s)
    ensures exists pre, post :: s == pre + r + post && AllWhiteSpace(pre) && AllWhiteSpace(post)
  {
    var t := TrimStart(s);
    var r := TrimEnd(t);
    var pre, post := s[..|s| - |t|], t[|r|..];
    PrefixOfSuffix(s, t, r);
    AllWhiteSpaceAppend(pre, t);
    AllWhiteSpaceAppend(r, post);
    r
  }

  /** Trimming twice is trimming once. */
  lemma TrimIdempotent(s: string)
    ensures Trim(Trim(s)) == Trim(s)
  {
    var r := Trim(s);
    assert TrimStart(r) == r;
    assert TrimEnd(r) == r;
  }

  /** Array.prototype.join: the elements in order, `sep` between neighbours. */
  function Join(sep: string, xs: seq<string>): (r: string)
    ensures xs == [] ==> r == []
    ensures |xs| == 1 ==> r == xs[0]
  {
    if |xs| == 0 then []
    else if |xs| == 1 then xs[0]
    else xs[0] + sep + Join(sep, xs[1..])
  }

  /** Joining one more element adds the separator and that element at the end. */
  lemma {:induction false} JoinSnoc(sep: string, xs: seq<string>, y: string)
    ensures Join(sep, xs + [y]) == if xs == [] then y else Join(sep, xs) + sep + y
  {
    if |xs| <= 1 {
      if |xs| == 1 {
        assert (xs + [y])[1..] == [y];
      }
    } else {
      assert (xs + [y])[1..] == xs[1..] + [y];
      JoinSnoc(sep, xs[1..], y);
    }
  }

  /**
   * JavaScript's `a % b` for a positive divisor: the remainder of division
   * truncated toward zero, which takes the sign of the dividend.
   */
  function Remainder(a: int, b: int): (r: int)
    requires b > 0
    ensures a >= 0 ==> 0 <= r < b && r == a % b
    ensures a < 0 ==> -b < r <= 0
  {
    if a >= 0 then a % b else -((-a) % b)
  }

  /** A positive multiple of `b` is at least `b`. */
  lemma {:induction false} ProductAtLeast(b: nat, x: nat)
    requires x >= 1
    ensures b * x >= b
  {
    if x > 1 {
      ProductAtLeast(b, x - 1);
      assert b * x == b * (x - 1) + b;
    }
  }

  /** Euclidean division has one remainder in [0, b). */
  lemma ModUnique(a: int, b: int, q: int, r: int)
    requires b > 0 && 0 <= r < b && a == b * q + r
    ensures a % b == r
  {
    var q', r' := a / b, a % b;
    assert a == b * q' + r';
    if q > q' {
      assert b * q - b * q' == b * (q - q');
      ProductAtLeast(b, q - q');
    } else if q < q' {
      assert b * q' - b * q == b * (q' - q);
      ProductAtLeast(b, q' - q);
    }
  }

  /** The quotient truncated toward zero, which pairs with Remainder. */
  function Quotient(a: int, b: int): int
    requires b > 0
  {
    if a >= 0 then a / b else -((-a) / b)
  }

  /** Truncated division: the remainder is what is left of `a` after the quotient's multiples of `b`. */
  lemma RemainderTruncates(a: int, b: int)
    requires b > 0
    ensures a == b * Quotient(a, b) + Remainder(a, b)
  {
    if a < 0 {
      var q := (-a) / b;
      assert -a == b * q + (-a) % b;
      assert b * (-q) == -(b * q);
    }
  }

  /** `r` is `s` with the element at index `k` taken out and the later ones moved down by one. */
  ghost predicate IsRemovalAt<T>(r: seq<T>, s: seq<T>, k: int) {
    0 <= k < |s| && |r| == |s| - 1
    && (forall j :: 0 <= j < k ==> r[j] == s[j])
    && (forall j :: k <= j < |r| ==> r[j] == s[j + 1])
  }

  /**
   * Array.prototype.splice(start, 1) on a list, as the list it leaves: a negative
   * start counts from the end, a start past the end removes nothing.
   */
  function SpliceOne<T>(s: seq<T>, start: int): (r: seq<T>)
    ensures 0 <= start < |s| ==> IsRemovalAt(r, s, start)
    ensures -|s| <= start < 0 ==> IsRemovalAt(r, s, |s| + start)
    ensures start < -|s| && s != [] ==> IsRemovalAt(r, s, 0)
    ensures start >= |s| || s == [] ==> r == s
  {
    var actual := if start < 0 then (if |s| + start < 0 then 0 else |s| + start)
                  else (if start < |s| then start else |s|);
    var count := if |s| - actual < 1 then |s| - actual else 1;
    s[..actual] + s[actual + count..]
  }
}
