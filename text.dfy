/**
 * String operations the normalisers rely on: rendering a number in a template
 * literal (`${n}`) and `String.prototype.replace` with a string pattern, which
 * replaces only the first occurrence found by `indexOf`.
 */
module Text {
  import opened Wrappers

  predicate IsDigit(c: char) {
    '0' <= c <= '9'
  }

  function DigitChar(d: nat): (c: char)
    requires d < 10
    ensures IsDigit(c) && DigitValue(c) == d
  {
    ['0', '1', '2', '3', '4', '5', '6', '7', '8', '9'][d]
  }

  function DigitValue(c: char): nat
    requires IsDigit(c)
  {
    c as int - '0' as int
  }

  /** The value of a string of decimal digits (the inverse of DecimalString). */
  function ParseDecimal(s: string): nat
    requires forall i :: 0 <= i < |s| ==> IsDigit(s[i])
  {
    if |s| == 0 then 0
    else ParseDecimal(s[..|s| - 1]) * 10 + DigitValue(s[|s| - 1])
  }

  /** How JavaScript renders a non-negative integer: decimal digits, no leading zero. */
  function DecimalString(n: nat): (s: string)
    ensures |s| >= 1 && (forall i :: 0 <= i < |s| ==> IsDigit(s[i]))
    ensures |s| > 1 ==> s[0] != '0'
    ensures ParseDecimal(s) == n
  {
    if n < 10 then [DigitChar(n)]
    else
      var prefix := DecimalString(n / 10);
      var s := prefix + [DigitChar(n % 10)];
      assert s[..|s| - 1] == prefix;
      s
  }

  /** Distinct numbers render as distinct strings. */
  lemma DecimalStringInjective(m: nat, n: nat)
    requires DecimalString(m) == DecimalString(n)
    ensures m == n
  {
    assert ParseDecimal(DecimalString(m)) == m;
  }

  /** `p` occurs in `s` starting at index `i`. */
  predicate OccursAt(s: string, p: string, i: nat) {
    i + |p| <= |s| && s[i..i + |p|] == p
  }

  /** `indexOf` searching from index `k`: the first occurrence of `p` at or after `k`. */
  function IndexFrom(s: string, p: string, k: nat): (r: Option<nat>)
    requires k <= |s| + 1
    ensures r.Some? ==> k <= r.value && OccursAt(s, p, r.value)
    ensures r.Some? ==> forall j: nat :: k <= j < r.value ==> !OccursAt(s, p, j)
    ensures r.None? ==> forall j: nat :: k <= j ==> !OccursAt(s, p, j)
    decreases |s| + 1 - k
  {
    if k + |p| > |s| then None
    else if s[k..k + |p|] == p then Some(k)
    else IndexFrom(s, p, k + 1)
  }

  /** `s.indexOf(p)`, with `None` standing for -1. */
  function IndexOf(s: string, p: string): (r: Option<nat>)
    ensures r.Some? ==> OccursAt(s, p, r.value)
    ensures r.Some? ==> forall j: nat :: j < r.value ==> !OccursAt(s, p, j)
    ensures r.None? ==> forall j: nat :: !OccursAt(s, p, j)
  {
    IndexFrom(s, p, 0)
  }

  /** `s.replace(p, '')`: removes the first occurrence of `p`, if there is one. */
  function RemoveFirst(s: string, p: string): string {
    match IndexOf(s, p)
    case None => s
    case Some(i) => s[..i] + s[i + |p|..]
  }

  /** When `p` does not occur in `s`, the replacement leaves `s` as it is. */
  lemma RemoveFirstAbsent(s: string, p: string)
    requires forall j: nat :: !OccursAt(s, p, j)
    ensures RemoveFirst(s, p) == s
  {
  }

  /**
   * When `p` occurs in `s`, the result is `s` with exactly the earliest occurrence
   * cut out: putting `p` back at index `i` gives `s` again, nothing before `i`
   * is an occurrence, and later occurrences are kept.
   */
  lemma RemoveFirstPresent(s: string, p: string, j: nat)
    requires OccursAt(s, p, j)
    ensures exists i: nat ::
      && i <= j && OccursAt(s, p, i)
      && (forall k: nat :: k < i ==> !OccursAt(s, p, k))
      && RemoveFirst(s, p) == s[..i] + s[i + |p|..]
      && RemoveFirst(s, p)[..i] + p + RemoveFirst(s, p)[i..] == s
    ensures |RemoveFirst(s, p)| == |s| - |p|
  {
    var i := IndexOf(s, p).value;
    CutAndRestore(s, p, i);
    assert i <= j;
  }

  /** Cutting out the occurrence at `i` and putting it back restores `s`. */
  lemma CutAndRestore(s: string, p: string, i: nat)
    requires OccursAt(s, p, i)
    ensures |s[..i] + s[i + |p|..]| == |s| - |p|
    ensures (s[..i] + s[i + |p|..])[..i] + p + (s[..i] + s[i + |p|..])[i..] == s
  {
    var r := s[..i] + s[i + |p|..];
    assert r[..i] == s[..i] && r[i..] == s[i + |p|..];
    assert s[..i] + s[i..i + |p|] + s[i + |p|..] == s;
  }
}
