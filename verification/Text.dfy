/** The parts of Go's `strings` and `strconv` that names and CPU lists go through. */
module Text {
  import opened Wrappers

  // ---------------------------------------------------------------- splitting

  function IndexOf(s: string, c: char): (i: nat)
    ensures i <= |s| && (i < |s| ==> s[i] == c)
    ensures forall j :: 0 <= j < i ==> s[j] != c
  {
    if s == [] || s[0] == c then 0 else 1 + IndexOf(s[1..], c)
  }

  /** `strings.Split` with a one-character separator. */
  function Split(s: string, c: char): (parts: seq<string>)
    ensures |parts| >= 1
    ensures forall p :: p in parts ==> c !in p
  {
    var i := IndexOf(s, c);
    if i == |s| then [s] else [s[..i]] + Split(s[i + 1..], c)
  }

  lemma IndexIs(s: string, c: char, i: nat)
    requires i <= |s| && (i < |s| ==> s[i] == c) && forall j :: 0 <= j < i ==> s[j] != c
    ensures IndexOf(s, c) == i
  {
  }

  /** A separator splits the text before it from the text after it. */
  lemma {:induction false} SplitAt(s: string, c: char, k: nat)
    requires k < |s| && s[k] == c
    ensures Split(s, c) == Split(s[..k], c) + Split(s[k + 1..], c)
  {
    var i := IndexOf(s, c);
    IndexIs(s[..k], c, i);
    if i < k {
      SplitAt(s[i + 1..], c, k - i - 1);
      Slices(s, i, k);
      Reassociate([s[..i]], Split(s[..k][i + 1..], c), Split(s[k + 1..], c));
    }
  }

  lemma Slices(s: string, i: nat, k: nat)
    requires i < k < |s|
    ensures s[i + 1..][..k - i - 1] == s[..k][i + 1..]
    ensures s[i + 1..][k - i..] == s[k + 1..]
    ensures s[..k][..i] == s[..i]
  {
  }

  lemma Reassociate(a: seq<string>, b: seq<string>, c: seq<string>)
    ensures a + b + c == a + (b + c)
  {
  }

  /** Splitting undoes joining. */
  lemma SplitJoined(a: string, b: string, c: char)
    ensures Split(a + [c] + b, c) == Split(a, c) + Split(b, c)
  {
    var s := a + [c] + b;
    SplitAt(s, c, |a|);
    assert s[..|a|] == a && s[|a| + 1..] == b;
  }

  lemma SplitNone(s: string, c: char)
    requires c !in s
    ensures Split(s, c) == [s]
  {
  }

  // ---------------------------------------------------------------- decimal numbers

  predicate IsDigit(c: char) {
    '0' <= c <= '9'
  }

  predicate AllDigits(s: string) {
    forall i :: 0 <= i < |s| ==> IsDigit(s[i])
  }

  function DigitsValue(s: string): nat
    requires AllDigits(s)
  {
    if s == [] then 0
    else
      var n := |s| - 1;
      10 * DigitsValue(s[..n]) + (s[n] as int - '0' as int)
  }

  /** `strconv.Itoa` of a number that is not negative. */
  function Itoa(n: nat): (s: string)
    ensures s != [] && AllDigits(s) && DigitsValue(s) == n
  {
    var d := [('0' as int + n % 10) as char];
    if n < 10 then d else
      var rest := Itoa(n / 10);
      assert (rest + d)[..|rest|] == rest;
      rest + d
  }

  const MAX_INT: int := 0x7fff_ffff_ffff_ffff

  /** `strconv.Atoi`: an optional sign, at least one digit, and a value of the machine's range. */
  function Atoi(s: string): Option<int> {
    var signed := s != [] && (s[0] == '+' || s[0] == '-');
    var digits := if signed then s[1..] else s;
    if digits == [] || !AllDigits(digits) then None
    else
      var v: int := if signed && s[0] == '-' then 0 - DigitsValue(digits) else DigitsValue(digits);
      if -MAX_INT - 1 <= v <= MAX_INT then Some(v) else None
  }

  /** Reading a printed number gives it back. */
  lemma AtoiItoa(n: nat)
    requires n <= MAX_INT
    ensures Atoi(Itoa(n)) == Some(n)
  {
    assert IsDigit(Itoa(n)[0]);
  }

  /** A number: digits, behind a sign or not. */
  predicate IsNumber(s: string) {
    (s != "" && AllDigits(s)) || (|s| >= 2 && (s[0] == '+' || s[0] == '-') && AllDigits(s[1..]))
  }

  /** What `strconv.Atoi` makes of digits with and without a sign, and that it takes nothing else. */
  lemma AtoiExactly(digits: string, s: string)
    requires digits != "" && AllDigits(digits)
    ensures var v := DigitsValue(digits);
            && Atoi(digits) == Atoi("+" + digits) == (if v <= 9223372036854775807 then Some(v) else None)
            && Atoi("-" + digits) == (if v <= 9223372036854775808 then Some(-(v as int)) else None)
    ensures Atoi(s).Some? ==> IsNumber(s)
  {
    assert IsDigit(digits[0]);
    assert ("+" + digits)[1..] == digits && ("-" + digits)[1..] == digits;
  }

  lemma ItoaInjective(m: nat, n: nat)
    requires Itoa(m) == Itoa(n)
    ensures m == n
  {
  }

  lemma DigitsHaveNo(s: string, c: char)
    requires AllDigits(s) && !IsDigit(c)
    ensures c !in s
  {
  }
}
