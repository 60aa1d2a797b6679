/** String helpers shared by the launcher and the Matlab writer: Python's
    str.replace and str.strip, decimal formatting of integers ('%d' in
    Python, operator<< in C++) and left padding (std::setw/std::setfill). */
module Text {

  /** p occurs in s at position i. */
  predicate StartsAt(s: string, p: string, i: int)
  {
    0 <= i && i + |p| <= |s| && s[i..i + |p|] == p
  }

  /** p occurs somewhere in s. */
  predicate Contains(s: string, p: string)
  {
    exists i :: 0 <= i <= |s| && StartsAt(s, p, i)
  }

  /** Python's s.replace(p, r): every non-overlapping occurrence of p,
      found scanning left to right, is replaced by r. A replacement as long
      as the pattern keeps the length. */
  function ReplaceAll(s: string, p: string, r: string): (res: string)
    requires |p| > 0
    ensures |p| == |r| ==> |res| == |s|
    decreases |s|
  {
    if |s| < |p| then s
    else if s[..|p|] == p then r + ReplaceAll(s[|p|..], p, r)
    else [s[0]] + ReplaceAll(s[1..], p, r)
  }

  /** Replacing a pattern that does not occur changes nothing. */
  lemma {:induction false} ReplaceAbsent(s: string, p: string, r: string)
    requires |p| > 0 && !Contains(s, p)
    ensures ReplaceAll(s, p, r) == s
    decreases |s|
  {
    if |s| >= |p| {
      assert !StartsAt(s, p, 0);
      assert !Contains(s[1..], p) by {
        if Contains(s[1..], p) {
          var i :| 0 <= i <= |s[1..]| && StartsAt(s[1..], p, i);
          assert s[1..][i..i + |p|] == s[i + 1..i + 1 + |p|];
          assert StartsAt(s, p, i + 1);
        }
      }
      ReplaceAbsent(s[1..], p, r);
      assert [s[0]] + s[1..] == s;
    }
  }

  /** If no occurrence of p starts inside the prefix a of a + b, replacing in
      a + b leaves a alone and replaces in b. */
  lemma {:induction false} ReplaceAllAfterPrefix(a: string, b: string, p: string, r: string)
    requires |p| > 0
    requires forall i :: 0 <= i < |a| ==> !StartsAt(a + b, p, i)
    ensures ReplaceAll(a + b, p, r) == a + ReplaceAll(b, p, r)
    decreases |a|
  {
    if a != [] {
      var s := a + b;
      assert !StartsAt(s, p, 0);
      NoMatchShift(a, b, p);
      ReplaceAllAfterPrefix(a[1..], b, p, r);
      if |s| < |p| {
        assert ReplaceAll(b, p, r) == b;
        assert ReplaceAll(s, p, r) == s;
      } else {
        assert s[..|p|] != p;
        assert s[1..] == a[1..] + b;
        var x := ReplaceAll(b, p, r);
        assert ReplaceAll(s, p, r) == [s[0]] + ReplaceAll(a[1..] + b, p, r);
        assert ReplaceAll(a[1..] + b, p, r) == a[1..] + x;
        assert [s[0]] + (a[1..] + x) == ([s[0]] + a[1..]) + x;
        assert [s[0]] + a[1..] == a;
      }
    } else {
      assert a + b == b;
    }
  }

  lemma NoMatchShift(a: string, b: string, p: string)
    requires a != []
    requires forall i :: 0 <= i < |a| ==> !StartsAt(a + b, p, i)
    ensures forall i :: 0 <= i < |a| - 1 ==> !StartsAt(a[1..] + b, p, i)
  {
    var s := a + b;
    assert s[1..] == a[1..] + b;
    forall i | 0 <= i < |a| - 1
      ensures !StartsAt(a[1..] + b, p, i)
    {
      assert !StartsAt(s, p, i + 1);
      if i + |p| <= |s| - 1 {
        assert s[1..][i..i + |p|] == s[i + 1..i + 1 + |p|];
      }
    }
  }

  /** Replacing a single character c by a string that does not contain c
      leaves no c behind. */
  lemma {:induction false} ReplaceCharRemoves(s: string, c: char, r: string)
    requires c !in r
    ensures c !in ReplaceAll(s, [c], r)
    decreases |s|
  {
    if |s| >= 1 {
      ReplaceCharRemoves(s[1..], c, r);
      if s[..1] == [c] {
        assert s[1..] == s[|[c]|..];
      }
    }
  }

  /** Python's s.lstrip(c) for one character c. */
  function TrimLeft(s: string, c: char): (t: string)
    ensures |t| <= |s| && t == s[|s| - |t|..]
    ensures |t| > 0 ==> t[0] != c
    ensures forall i :: 0 <= i < |s| - |t| ==> s[i] == c
  {
    if |s| > 0 && s[0] == c then TrimLeft(s[1..], c) else s
  }

  /** Python's s.rstrip(c) for one character c. */
  function TrimRight(s: string, c: char): (t: string)
    ensures |t| <= |s| && t == s[..|t|]
    ensures |t| > 0 ==> t[|t| - 1] != c
    ensures forall i :: |t| <= i < |s| ==> s[i] == c
  {
    if |s| > 0 && s[|s| - 1] == c then TrimRight(s[..|s| - 1], c) else s
  }

  /** Python's s.strip(c): leading and trailing copies of c removed. The
      result is a contiguous piece of s, and everything cut off is c. */
  function Strip(s: string, c: char): (t: string)
    ensures |t| > 0 ==> t[0] != c && t[|t| - 1] != c
    ensures var k := |s| - |TrimLeft(s, c)|;
            k + |t| <= |s| && t == s[k..k + |t|]
            && (forall i :: 0 <= i < k ==> s[i] == c)
            && (forall i :: k + |t| <= i < |s| ==> s[i] == c)
  {
    TrimRight(TrimLeft(s, c), c)
  }

  /** A string that neither begins nor ends with c is its own strip. */
  lemma StripKeeps(s: string, c: char)
    requires |s| > 0 ==> s[0] != c && s[|s| - 1] != c
    ensures Strip(s, c) == s
  {
  }

  /** The decimal digit character for 0 <= d < 10. */
  function DigitChar(d: int): (ch: char)
    requires 0 <= d < 10
    ensures '0' <= ch <= '9' && ch as int == '0' as int + d
  {
    ('0' as int + d) as char
  }

  function DigitValue(ch: char): (d: int)
    requires '0' <= ch <= '9'
    ensures 0 <= d < 10 && DigitChar(d) == ch
  {
    (ch as int) - ('0' as int)
  }

  predicate IsDigits(s: string)
  {
    forall i :: 0 <= i < |s| ==> '0' <= s[i] <= '9'
  }

  /** The decimal digits of a natural number, most significant first, with no
      leading zero. */
  function Digits(n: nat): (s: string)
    ensures |s| >= 1 && IsDigits(s)
    ensures |s| > 1 ==> s[0] != '0'
  {
    if n < 10 then [DigitChar(n)] else Digits(n / 10) + [DigitChar(n % 10)]
  }

  /** How '%d' (Python) and operator<< (C++) write an int. */
  function DecimalString(n: int): (s: string)
    ensures |s| >= 1
    ensures n < 0 <==> s[0] == '-'
  {
    if n < 0 then "-" + Digits(-n) else Digits(n)
  }

  /** The value of a string of decimal digits. */
  function ParseDigits(s: string): nat
    requires IsDigits(s)
  {
    if s == [] then 0 else 10 * ParseDigits(s[..|s| - 1]) + DigitValue(s[|s| - 1])
  }

  lemma {:induction false} ParseDigitsOfDigits(n: nat)
    ensures ParseDigits(Digits(n)) == n
  {
    if n >= 10 {
      var s := Digits(n);
      assert s[..|s| - 1] == Digits(n / 10);
      ParseDigitsOfDigits(n / 10);
    }
  }

  function Pow10(k: nat): (p: nat)
    ensures p >= 1
  {
    if k == 0 then 1 else 10 * Pow10(k - 1)
  }

  lemma {:induction false} DigitsLength(n: nat, k: nat)
    requires 1 <= k && n < Pow10(k)
    ensures |Digits(n)| <= k
  {
    if n >= 10 {
      assert k >= 2;
      DigitsLength(n / 10, k - 1);
    }
  }

  /** k copies of c. */
  function Repeat(c: char, k: nat): (s: string)
    ensures |s| == k && forall i :: 0 <= i < k ==> s[i] == c
  {
    if k == 0 then [] else [c] + Repeat(c, k - 1)
  }

  /** std::setw(width) << std::setfill(fill) with the default (right)
      adjustment: fill characters are put in front until width is reached. */
  function PadLeft(s: string, width: nat, fill: char): (t: string)
    ensures |t| == if |s| >= width then |s| else width
    ensures t == Repeat(fill, |t| - |s|) + s
  {
    if |s| >= width then s else Repeat(fill, width - |s|) + s
  }

  /** Leading zeros do not change the value of a digit string. */
  lemma {:induction false} ParseDigitsLeadingZeros(k: nat, s: string)
    requires IsDigits(s)
    ensures IsDigits(Repeat('0', k) + s)
    ensures ParseDigits(Repeat('0', k) + s) == ParseDigits(s)
    decreases |s|
  {
    var z := Repeat('0', k);
    if s == [] {
      assert z + s == z;
      ParseZeros(k);
    } else {
      var t := z + s;
      assert t[..|t| - 1] == z + s[..|s| - 1];
      ParseDigitsLeadingZeros(k, s[..|s| - 1]);
    }
  }

  lemma {:induction false} ParseZeros(k: nat)
    ensures IsDigits(Repeat('0', k)) && ParseDigits(Repeat('0', k)) == 0
  {
    if k > 0 {
      var z := Repeat('0', k);
      assert z[..k - 1] == Repeat('0', k - 1);
      ParseZeros(k - 1);
    }
  }
}
