/** The string formatting the exporter relies on: Go's `%d` verb (the same
    digits `strconv.FormatUint` produces) and `filepath.Base` on a Unix
    system. */
module Text {
  import opened Types

  predicate IsDigit(c: char) { '0' <= c <= '9' }

  function DigitChar(d: nat): (c: char)
    requires d < 10
    ensures IsDigit(c)
  {
    "0123456789"[d]
  }

  function DigitValue(c: char): nat
    requires IsDigit(c)
  {
    (c - '0') as nat
  }

  /** Decimal rendering of a natural number, without leading zeros. */
  function NatToString(n: nat): (s: string)
    ensures |s| >= 1
    ensures forall k :: 0 <= k < |s| ==> IsDigit(s[k])
    ensures |s| > 1 ==> s[0] != '0'
  {
    if n < 10 then [DigitChar(n)] else NatToString(n / 10) + [DigitChar(n % 10)]
  }

  /** Reads a string of decimal digits back as a number. */
  function ParseNat(s: string): nat
    requires forall k :: 0 <= k < |s| ==> IsDigit(s[k])
  {
    if s == [] then 0 else ParseNat(s[..|s| - 1]) * 10 + DigitValue(s[|s| - 1])
  }

  lemma {:induction false} ParseNatToString(n: nat)
    ensures ParseNat(NatToString(n)) == n
  {
    var s := NatToString(n);
    if n >= 10 {
      ParseNatToString(n / 10);
      assert s[..|s| - 1] == NatToString(n / 10);
      assert DigitValue(s[|s| - 1]) == n % 10;
    } else {
      assert DigitValue(s[0]) == n;
    }
  }

  /** Distinct numbers print differently. */
  lemma NatToStringInjective(a: nat, b: nat)
    ensures NatToString(a) == NatToString(b) ==> a == b
  {
    ParseNatToString(a);
    ParseNatToString(b);
  }

  /** Go's `fmt.Sprintf("%d", x)` for a value read out of the decoded record:
      the number, or the marker `fmt` prints for a missing (nil) operand. */
  function FmtD(x: Option<U64>): string
  {
    match x
    case Some(n) => NatToString(n)
    case None => "%!d(<nil>)"
  }

  /** `p` with every trailing '/' removed. */
  function StripTrailingSlashes(p: string): (q: string)
    ensures |q| <= |p| && q == p[..|q|]
    ensures q == [] || q[|q| - 1] != '/'
    ensures forall k :: |q| <= k < |p| ==> p[k] == '/'
  {
    if |p| > 0 && p[|p| - 1] == '/' then StripTrailingSlashes(p[..|p| - 1]) else p
  }

  /** The part of `p` after its last '/' (all of `p` if it has none). */
  function AfterLastSlash(p: string): (r: string)
    ensures |r| <= |p| && r == p[|p| - |r|..]
    ensures '/' !in r
    ensures |r| < |p| ==> p[|p| - |r| - 1] == '/'
  {
    if p == [] then []
    else if p[|p| - 1] == '/' then []
    else AfterLastSlash(p[..|p| - 1]) + [p[|p| - 1]]
  }

  /** Go's `filepath.Base` with '/' as the only separator and no volume
      names: "." for the empty path, "/" for a path of slashes only, and
      otherwise the last element once trailing slashes are dropped. */
  function Base(p: string): string
  {
    if p == "" then "."
    else
      var q := StripTrailingSlashes(p);
      if q == "" then "/" else AfterLastSlash(q)
  }

  /** The base name is never empty and holds a '/' only when it is "/". */
  lemma BaseShape(p: string)
    ensures Base(p) != ""
    ensures '/' in Base(p) ==> Base(p) == "/"
  {
    if p != "" {
      var q := StripTrailingSlashes(p);
      if q != "" {
        var r := AfterLastSlash(q);
        assert q[|q| - 1] != '/';
      }
    }
  }
}
