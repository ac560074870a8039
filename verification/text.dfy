/** The few pieces of Python's string handling the pipeline relies on:
    `os.path.join` and `os.path.basename` on POSIX paths, and the decimal
    conversions `str(n)` and `int(s)` that the model registry uses to turn
    directory names into version numbers and back. */
module Text {
  import opened Wrappers

  const Sep: char := '/'

  /** `p` starts at the root of the file system. */
  predicate Absolute(p: string) {
    |p| > 0 && p[0] == Sep
  }

  /** `os.path.join(a, b)`: an absolute `b` replaces `a`; otherwise a separator
      is inserted unless `a` is empty or already ends with one. */
  function Join(a: string, b: string): (p: string)
    ensures Absolute(b) ==> p == b
    ensures !Absolute(b) ==> |a| + |b| <= |p| <= |a| + |b| + 1
    ensures !Absolute(b) ==> a <= p
  {
    if Absolute(b) then b
    else if |a| == 0 || a[|a| - 1] == Sep then a + b
    else a + [Sep] + b
  }

  /** A relative second part ends the joined path. */
  lemma JoinEndsWithPart(a: string, b: string)
    requires !Absolute(b)
    ensures var p := Join(a, b); p[|p| - |b|..] == b
  {
  }

  /** `os.path.basename(p)`: everything after the last separator. */
  function Basename(p: string): (b: string)
    ensures Sep !in b && |b| <= |p|
  {
    if |p| == 0 || p[|p| - 1] == Sep then ""
    else Basename(p[..|p| - 1]) + [p[|p| - 1]]
  }

  /** The base name is the path's last component: it ends the path, and
      unless it is the whole path a separator comes right before it. */
  lemma {:induction false} BasenameIsLastComponent(p: string)
    ensures var b := Basename(p);
      && p[|p| - |b|..] == b
      && (|b| < |p| ==> p[|p| - |b| - 1] == Sep)
    decreases |p|
  {
    if |p| > 0 && p[|p| - 1] != Sep {
      var init := p[..|p| - 1];
      BasenameIsLastComponent(init);
      var b0 := Basename(init);
      assert Basename(p) == b0 + [p[|p| - 1]];
      assert init[|init| - |b0|..] == b0;
      assert p[|p| - |b0| - 1..] == init[|init| - |b0|..] + [p[|p| - 1]];
      if |b0| < |init| {
        assert p[|p| - |b0| - 2] == init[|init| - |b0| - 1];
      }
    }
  }

  lemma {:induction false} BasenameAfterSep(x: string, b: string)
    requires Sep !in b
    requires |x| == 0 || x[|x| - 1] == Sep
    ensures Basename(x + b) == b
    decreases |b|
  {
    if |b| > 0 {
      var p := x + b;
      var init := b[..|b| - 1];
      var last := b[|b| - 1];
      assert last in b;
      assert p[|p| - 1] == last && last != Sep;
      assert p[..|p| - 1] == x + init;
      assert Sep !in init by {
        assert forall k :: 0 <= k < |init| ==> init[k] == b[k];
      }
      BasenameAfterSep(x, init);
      assert Basename(p) == Basename(x + init) + [last];
      assert b == init + [last];
    } else {
      assert x + b == x;
    }
  }

  /** The last component of a joined path is the component that was joined. */
  lemma BasenameOfJoin(a: string, b: string)
    requires Sep !in b && |b| > 0
    ensures Basename(Join(a, b)) == b
  {
    if |a| == 0 || a[|a| - 1] == Sep {
      BasenameAfterSep(a, b);
    } else {
      assert a + [Sep] + b == (a + [Sep]) + b;
      BasenameAfterSep(a + [Sep], b);
    }
  }

  /** Joining the same directory with two different plain names gives two
      different paths. */
  lemma JoinInjective(a: string, b1: string, b2: string)
    requires Sep !in b1 && |b1| > 0
    requires Sep !in b2 && |b2| > 0
    ensures Join(a, b1) == Join(a, b2) <==> b1 == b2
  {
    if Join(a, b1) == Join(a, b2) {
      BasenameOfJoin(a, b1);
      BasenameOfJoin(a, b2);
    }
  }

  // ---------------------------------------------------------------------
  // Decimal numerals: str(n) and int(s)

  predicate IsDigit(c: char) {
    '0' <= c <= '9'
  }

  function DigitValue(c: char): nat
    requires IsDigit(c)
  {
    c as int - '0' as int
  }

  function DigitChar(d: nat): (c: char)
    requires d < 10
    ensures IsDigit(c) && DigitValue(c) == d
  {
    ('0' as int + d) as char
  }

  predicate AllDigits(s: string) {
    forall i :: 0 <= i < |s| ==> IsDigit(s[i])
  }

  /** The value of a non-empty run of decimal digits, most significant first. */
  function DigitsValue(s: string): nat
    requires AllDigits(s)
  {
    if |s| == 0 then 0
    else DigitsValue(s[..|s| - 1]) * 10 + DigitValue(s[|s| - 1])
  }

  /** `str(n)` for a non-negative `n`: no leading zeros, "0" for zero. */
  function ShowNat(n: nat): (s: string)
    ensures |s| > 0 && AllDigits(s)
    ensures |s| > 1 ==> s[0] != '0'
  {
    if n < 10 then [DigitChar(n)]
    else ShowNat(n / 10) + [DigitChar(n % 10)]
  }

  /** `str(n)` for any Python int. */
  function ShowInt(n: int): (s: string)
    ensures |s| > 0 && Sep !in s
    ensures IsNumeral(s) && (s[0] == '-' <==> n < 0) && s[0] != '+'
  {
    if n < 0 then "-" + ShowNat(-n) else ShowNat(n)
  }

  /** At least one ASCII decimal digit, after an optional `+` or `-`. */
  predicate IsNumeral(s: string) {
    var digits := if |s| > 0 && (s[0] == '-' || s[0] == '+') then s[1..] else s;
    |digits| > 0 && AllDigits(digits)
  }

  /** `int(s)` on a directory name: an optional sign followed by at least one
      decimal digit; anything else raises `ValueError`, modelled as `None`. */
  function ParseInt(s: string): (r: Option<int>)
    ensures r.Some? <==> IsNumeral(s)
    ensures r.Some? && s[0] == '-' ==> r.value <= 0
    ensures r.Some? && s[0] != '-' ==> r.value >= 0
  {
    if |s| > 0 && (s[0] == '-' || s[0] == '+') then
      var digits := s[1..];
      if |digits| > 0 && AllDigits(digits) then
        Some(if s[0] == '-' then -(DigitsValue(digits) as int) else DigitsValue(digits))
      else None
    else if |s| > 0 && AllDigits(s) then Some(DigitsValue(s))
    else None
  }

  lemma {:induction false} DigitsOfShowNat(n: nat)
    ensures DigitsValue(ShowNat(n)) == n
  {
    if n >= 10 {
      var s := ShowNat(n);
      assert s[..|s| - 1] == ShowNat(n / 10);
      DigitsOfShowNat(n / 10);
    }
  }

  /** `int(str(n)) == n`: the registry can read back every version number it
      writes. */
  lemma ParseShowInt(n: int)
    ensures ParseInt(ShowInt(n)) == Some(n)
  {
    if n < 0 {
      DigitsOfShowNat(-n);
      assert ("-" + ShowNat(-n))[1..] == ShowNat(-n);
    } else {
      DigitsOfShowNat(n);
    }
  }

  /** Different numbers have different decimal names. */
  lemma ShowIntInjective(m: int, n: int)
    ensures ShowInt(m) == ShowInt(n) <==> m == n
  {
    ParseShowInt(m);
    ParseShowInt(n);
  }
}
