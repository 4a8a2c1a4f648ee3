/** Strings as the program uses them: ASCII lower-casing, the wildcard match of
    PowerShell's -like with a trailing star, and decimal numerals. */
module Text {

  datatype Option<+T> = None | Some(value: T)

  function LowerChar(c: char): char {
    if 'A' <= c <= 'Z' then (c as int + 32) as char else c
  }

  function Lower(s: string): string {
    seq(|s|, i requires 0 <= i < |s| => LowerChar(s[i]))
  }

  /** name -like "<prefix>*"; -like ignores case. */
  predicate Like(name: string, prefix: string) {
    Lower(prefix) <= Lower(name)
  }

  lemma LowerFixed(s: string)
    requires forall c | c in s :: !('A' <= c <= 'Z')
    ensures Lower(s) == s
  {
    assert forall i | 0 <= i < |s| :: s[i] in s;
  }

  /** The same letter in either case, or the same character. */
  predicate SameLetter(c: char, d: char) {
    c == d || ('a' <= d <= 'z' && c as int + 32 == d as int) || ('a' <= c <= 'z' && d as int + 32 == c as int)
  }

  predicate SameText(a: string, b: string) {
    |a| == |b| && forall i | 0 <= i < |a| :: SameLetter(a[i], b[i])
  }

  lemma LowerCharIs(c: char, d: char)
    ensures LowerChar(c) == LowerChar(d) <==> SameLetter(c, d)
  {
  }

  /** Lower-casing forgets exactly the case of letters. */
  lemma LowerIs(a: string, b: string)
    ensures Lower(a) == Lower(b) <==> SameText(a, b)
  {
    forall i | 0 <= i < |a| && i < |b| ensures Lower(a)[i] == Lower(b)[i] <==> SameLetter(a[i], b[i]) {
      LowerCharIs(a[i], b[i]);
    }
  }

  /** A pattern matches what starts with its text in any case. */
  lemma LikeIs(name: string, prefix: string)
    ensures Like(name, prefix) <==> |prefix| <= |name| && SameText(name[..|prefix|], prefix)
  {
    if |prefix| <= |name| {
      LowerIs(name[..|prefix|], prefix);
      assert Lower(name)[..|prefix|] == Lower(name[..|prefix|]);
    }
  }

  lemma LowerConcat(a: string, b: string)
    ensures Lower(a + b) == Lower(a) + Lower(b)
  {
  }

  /** Prefix matching splits at a common first part of equal length. */
  lemma LikeSplit(a: string, b: string, x: string, y: string)
    requires |a| == |b|
    ensures Like(a + x, b + y) <==> Lower(a) == Lower(b) && Like(x, y)
  {
    LowerConcat(a, x);
    LowerConcat(b, y);
    var (la, lb, lx, ly) := (Lower(a), Lower(b), Lower(x), Lower(y));
    if lb + ly <= la + lx {
      assert la == (la + lx)[..|a|] == (lb + ly)[..|a|] == lb;
      assert ly == (lb + ly)[|b|..] && lx == (la + lx)[|a|..];
    }
  }

  predicate Lacks(s: string, c: char) {
    forall i | 0 <= i < |s| :: s[i] != c
  }

  // ----- decimal numerals -----

  function Digit(d: nat): (c: char)
    requires d < 10
    ensures '0' <= c <= '9' && c as int == '0' as int + d
  {
    ('0' as int + d) as char
  }

  function Decimal(n: nat): (s: string)
    ensures |s| > 0
    ensures forall i | 0 <= i < |s| :: '0' <= s[i] <= '9'
  {
    if n < 10 then [Digit(n)] else Decimal(n / 10) + [Digit(n % 10)]
  }

  /** The number a numeral stands for. */
  function Numeral(s: string): int {
    if s == "" then 0 else 10 * Numeral(s[..|s| - 1]) + (s[|s| - 1] as int - '0' as int)
  }

  lemma {:induction false} DecimalReads(n: nat)
    ensures Numeral(Decimal(n)) == n
    ensures n > 0 ==> Decimal(n)[0] != '0'
  {
    var d := Decimal(n);
    if n >= 10 {
      DecimalReads(n / 10);
      assert d[..|d| - 1] == Decimal(n / 10);
    } else {
      assert d[..0] == "";
    }
  }

  /** The number left when the last k digits of m are dropped. */
  function DropDigits(m: nat, k: nat): nat {
    if k == 0 then m else DropDigits(m / 10, k - 1)
  }

  /** The digits of m start with those of n, said of the numbers. */
  ghost predicate Extends(m: nat, n: nat) {
    exists k: nat :: ExtendsBy(m, n, k)
  }

  ghost predicate ExtendsBy(m: nat, n: nat, k: nat) {
    DropDigits(m, k) == n && (n == 0 ==> m == 0)
  }

  lemma {:induction false} DecimalZero(m: nat)
    ensures Decimal(m)[0] == '0' <==> m == 0
  {
    if m >= 10 {
      DecimalZero(m / 10);
    }
  }

  lemma {:induction false} DecimalInjective(m: nat, n: nat)
    requires Decimal(m) == Decimal(n)
    ensures m == n
  {
    var (dm, dn) := (Decimal(m), Decimal(n));
    assert dm[|dm| - 1] == Digit(m % 10) && dn[|dn| - 1] == Digit(n % 10);
    if m >= 10 && n >= 10 {
      assert dm[..|dm| - 1] == Decimal(m / 10) && dn[..|dn| - 1] == Decimal(n / 10);
      DecimalInjective(m / 10, n / 10);
    }
  }

  /** Numerals are prefix-ordered exactly as Extends says. */
  lemma {:induction false} PrefixIffExtends(m: nat, n: nat)
    ensures Decimal(n) <= Decimal(m) <==> Extends(m, n)
  {
    if Decimal(n) <= Decimal(m) {
      PrefixExtends(m, n);
    }
    if Extends(m, n) {
      var k: nat :| ExtendsBy(m, n, k);
      ExtendsPrefix(m, n, k);
    }
  }

  lemma {:induction false} PrefixExtends(m: nat, n: nat)
    requires Decimal(n) <= Decimal(m)
    ensures Extends(m, n)
  {
    if n == 0 {
      DecimalZero(m);
      DecimalZero(n);
    }
    if Decimal(n) == Decimal(m) {
      DecimalInjective(m, n);
      assert ExtendsBy(m, n, 0);
    } else {
      var dm := Decimal(m);
      assert m >= 10;
      assert dm[..|dm| - 1] == Decimal(m / 10);
      PrefixExtends(m / 10, n);
      var k: nat :| ExtendsBy(m / 10, n, k);
      assert ExtendsBy(m, n, k + 1);
    }
  }

  lemma {:induction false} ExtendsPrefix(m: nat, n: nat, k: nat)
    requires ExtendsBy(m, n, k)
    ensures Decimal(n) <= Decimal(m)
  {
    if k > 0 && m != 0 {
      if m < 10 {
        DropZero(k - 1);
        assert false;
      }
      ExtendsPrefix(m / 10, n, k - 1);
      assert Decimal(m) == Decimal(m / 10) + [Digit(m % 10)];
    } else if k > 0 {
      DropZero(k - 1);
    }
  }

  lemma {:induction false} DropZero(k: nat)
    ensures DropDigits(0, k) == 0
  {
    if k > 0 {
      DropZero(k - 1);
    }
  }
}
