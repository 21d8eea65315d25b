/** String helpers the source gets from JavaScript: trim, toLowerCase,
    includes and the decimal rendering of integers. */
module Text {

  /** The whitespace that trimming removes (a subset of JavaScript's `\s`). */
  predicate IsSpace(c: char)
  {
    c == ' ' || c == '\t' || c == '\n' || c == '\r'
  }

  predicate AllSpace(s: string)
  {
    forall k | 0 <= k < |s| :: IsSpace(s[k])
  }

  /** Drops leading whitespace: what is removed is whitespace, and what is left
      is a suffix of `s` that does not start with whitespace. */
  function TrimStart(s: string): (r: string)
    ensures |r| <= |s| && r == s[|s| - |r|..]
    ensures AllSpace(s[..|s| - |r|])
    ensures r == [] || !IsSpace(r[0])
  {
    if |s| > 0 && IsSpace(s[0]) then
      var r := TrimStart(s[1..]);
      assert s[1..][..|s| - 1 - |r|] == s[1..|s| - |r|];
      r
    else s
  }

  /** Drops trailing whitespace: what is removed is whitespace, and what is left
      is a prefix of `s` that does not end with whitespace. */
  function TrimEnd(s: string): (r: string)
    ensures |r| <= |s| && r == s[..|r|]
    ensures AllSpace(s[|r|..])
    ensures r == [] || !IsSpace(r[|r| - 1])
  {
    if |s| > 0 && IsSpace(s[|s| - 1]) then
      var r := TrimEnd(s[..|s| - 1]);
      assert s[|r|..] == s[..|s| - 1][|r|..] + [s[|s| - 1]];
      r
    else s
  }

  /** `String.prototype.trim`. */
  function Trim(s: string): string
  {
    TrimEnd(TrimStart(s))
  }

  /** `r` sits at offset `i` of `s` with only whitespace before and after it. */
  predicate PaddedAt(s: string, r: string, i: int)
  {
    0 <= i <= |s| - |r| && s[i..i + |r|] == r && AllSpace(s[..i]) && AllSpace(s[i + |r|..])
  }

  /** `s` has no whitespace at either end. */
  predicate Unpadded(s: string)
  {
    s == [] || (!IsSpace(s[0]) && !IsSpace(s[|s| - 1]))
  }

  /** A string without whitespace at either end trims to itself. */
  lemma TrimUnpadded(s: string)
    requires Unpadded(s)
    ensures Trim(s) == s
  {
    assert TrimStart(s) == s;
  }

  /** A suffix `t` of `s` after whitespace, and a prefix `r` of `t` before
      whitespace, sit in `s` padded by whitespace. */
  lemma PaddedPiece(s: string, t: string, r: string)
    requires |t| <= |s| && t == s[|s| - |t|..] && AllSpace(s[..|s| - |t|])
    requires |r| <= |t| && r == t[..|r|] && AllSpace(t[|r|..])
    ensures PaddedAt(s, r, |s| - |t|)
  {
    var i := |s| - |t|;
    assert s[i..i + |r|] == t[..|r|];
    assert s[i + |r|..] == t[|r|..];
  }

  /** Where `Trim` finds its result: right after the leading whitespace. */
  lemma TrimPadding(s: string)
    ensures PaddedAt(s, Trim(s), |s| - |TrimStart(s)|)
  {
    PaddedPiece(s, TrimStart(s), TrimEnd(TrimStart(s)));
  }

  /** Trimming keeps a contiguous piece of the input, removes only whitespace
      around it, and leaves no whitespace at either end. */
  lemma TrimSpec(s: string)
    ensures var r := Trim(s);
      && |r| <= |s|
      && (exists i :: PaddedAt(s, r, i))
      && (r == [] || (!IsSpace(r[0]) && !IsSpace(r[|r| - 1])))
  {
    TrimPadding(s);
    var t := TrimStart(s);
    if Trim(s) != [] {
      assert Trim(s)[0] == t[0];
    }
  }

  /** Trimming twice is trimming once. */
  lemma {:induction false} TrimIdempotent(s: string)
    ensures Trim(Trim(s)) == Trim(s)
  {
    var r := Trim(s);
    TrimSpec(s);
    if r != [] {
      assert TrimStart(r) == r;
      assert TrimEnd(r) == r;
    }
  }

  function LowerChar(c: char): char
  {
    if 'A' <= c <= 'Z' then (c as int + 32) as char else c
  }

  /** `String.prototype.toLowerCase` on the ASCII letters. */
  function ToLower(s: string): (r: string)
    ensures |r| == |s|
    ensures forall k | 0 <= k < |s| :: r[k] == LowerChar(s[k])
  {
    seq(|s|, k requires 0 <= k < |s| => LowerChar(s[k]))
  }

  /** Lowering is idempotent. */
  lemma LowerIdempotent(s: string)
    ensures ToLower(ToLower(s)) == ToLower(s)
  {
    assert forall k | 0 <= k < |s| :: LowerChar(LowerChar(s[k])) == LowerChar(s[k]);
  }

  /** `s.includes(t)`: `t` occurs in `s` as a contiguous piece. */
  function Includes(s: string, t: string): bool
  {
    t <= s || (|s| > 0 && Includes(s[1..], t))
  }

  /** `t` occurs in `s` starting at offset `i`. */
  predicate OccursAt(s: string, t: string, i: int)
  {
    0 <= i <= |s| - |t| && s[i..i + |t|] == t
  }

  /** `includes` holds iff `t` occurs at some offset of `s`. */
  lemma {:induction false} IncludesAt(s: string, t: string)
    ensures Includes(s, t) <==> exists i :: OccursAt(s, t, i)
  {
    if t <= s {
      assert OccursAt(s, t, 0);
    } else if |s| > 0 {
      IncludesAt(s[1..], t);
      if Includes(s[1..], t) {
        var i :| OccursAt(s[1..], t, i);
        assert s[i + 1..i + 1 + |t|] == s[1..][i..i + |t|];
        assert OccursAt(s, t, i + 1);
      }
      if exists i :: OccursAt(s, t, i) {
        var i :| OccursAt(s, t, i);
        assert i != 0;
        assert s[1..][i - 1..i - 1 + |t|] == s[i..i + |t|];
        assert OccursAt(s[1..], t, i - 1);
      }
    } else {
      assert forall i :: !OccursAt(s, t, i);
    }
  }

  /** The empty string is included in every string. */
  lemma IncludesEmpty(s: string)
    ensures Includes(s, "")
  {
  }

  /** A string lacking one of the characters of `t` does not include `t`. */
  lemma MissingChar(s: string, t: string, c: char)
    requires c in t && c !in s
    ensures !Includes(s, t)
  {
    var j :| 0 <= j < |t| && t[j] == c;
    forall i | 0 <= i <= |s| - |t| ensures !OccursAt(s, t, i) {
      assert s[i + j] != c;
      assert s[i..i + |t|][j] == s[i + j];
    }
    IncludesAt(s, t);
  }

  function Digit(d: nat): char
    requires d < 10
  {
    "0123456789"[d]
  }

  /** The number a string of decimal digits denotes, most significant first. */
  ghost function DigitsValue(s: string): int
  {
    if s == [] then 0 else 10 * DigitsValue(s[..|s| - 1]) + (s[|s| - 1] as int - '0' as int)
  }

  /** `Number.prototype.toString` on a natural number: the decimal digits
      that denote it, without leading zeros. */
  function NatToString(n: nat): (r: string)
    ensures |r| > 0
    ensures forall k | 0 <= k < |r| :: '0' <= r[k] <= '9'
    ensures DigitsValue(r) == n
    ensures |r| > 1 ==> r[0] != '0'
  {
    if n < 10 then [Digit(n)]
    else
      var r := NatToString(n / 10) + [Digit(n % 10)];
      assert r[..|r| - 1] == NatToString(n / 10);
      r
  }

  /** `String(i)` for an integer: a minus sign before the digits of a negative number. */
  function IntToString(i: int): (r: string)
    ensures |r| > 0
    ensures i >= 0 ==> r == NatToString(i)
    ensures i < 0 ==> r == "-" + NatToString(-i)
  {
    if i < 0 then "-" + NatToString(-i) else NatToString(i)
  }

  /** Decimal renderings have no letters, so lowering leaves them alone. */
  lemma LowerOfDigits(n: nat)
    ensures ToLower(NatToString(n)) == NatToString(n)
  {
  }
}
