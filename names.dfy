/** Name validity and the default nicknames "User0", "User1", ... given to new connections. */
module Names {

  /** Letters and digits. Only the ASCII ones are modelled. */
  predicate IsLetterOrDigit(c: char) {
    'a' <= c <= 'z' || 'A' <= c <= 'Z' || '0' <= c <= '9'
  }

  /** A name (nickname or channel name) is valid when it is non-empty and all letters and digits. */
  predicate ValidName(s: string) {
    |s| > 0 && forall i :: 0 <= i < |s| ==> IsLetterOrDigit(s[i])
  }

  /** The character-by-character scan of the server's name check. */
  method IsValidName(name: string) returns (ok: bool)
    ensures ok <==> ValidName(name)
  {
    if |name| == 0 {
      return false;
    }
    var i := 0;
    while i < |name|
      invariant 0 <= i <= |name|
      invariant forall j :: 0 <= j < i ==> IsLetterOrDigit(name[j])
    {
      if !IsLetterOrDigit(name[i]) {
        return false;
      }
      i := i + 1;
    }
    return true;
  }

  predicate IsDigit(c: char) {
    '0' <= c <= '9'
  }

  function DigitChar(d: nat): (c: char)
    requires d < 10
    ensures IsDigit(c)
  {
    ('0' as int + d) as char
  }

  function DigitValue(c: char): (d: nat)
    requires IsDigit(c)
    ensures d < 10 && DigitChar(d) == c
  {
    c as int - '0' as int
  }

  predicate AllDigits(s: string) {
    forall i :: 0 <= i < |s| ==> IsDigit(s[i])
  }

  /** The decimal rendering of a non-negative integer, as string concatenation produces it. */
  function DecimalString(n: nat): (s: string)
    ensures |s| > 0 && AllDigits(s)
    ensures (s[0] == '0') == (n == 0)
  {
    if n < 10 then [DigitChar(n)] else DecimalString(n / 10) + [DigitChar(n % 10)]
  }

  /** Reads a string of decimal digits back as a number. */
  function DecimalValue(s: string): nat
    requires AllDigits(s)
  {
    if s == [] then 0 else DecimalValue(s[..|s| - 1]) * 10 + DigitValue(s[|s| - 1])
  }

  lemma {:induction false} DecimalRoundTrip(n: nat)
    ensures DecimalValue(DecimalString(n)) == n
  {
    var s := DecimalString(n);
    if n < 10 {
      assert s[..|s| - 1] == [];
    } else {
      DecimalRoundTrip(n / 10);
      assert s[..|s| - 1] == DecimalString(n / 10);
    }
  }

  lemma DecimalStringInjective(a: nat, b: nat)
    requires DecimalString(a) == DecimalString(b)
    ensures a == b
  {
    DecimalRoundTrip(a);
    DecimalRoundTrip(b);
  }

  /** The N-th default nickname, "User" followed by N in decimal. */
  function DefaultName(n: nat): string {
    "User" + DecimalString(n)
  }

  lemma DefaultNameInjective(a: nat, b: nat)
    requires DefaultName(a) == DefaultName(b)
    ensures a == b
  {
    assert DecimalString(a) == DefaultName(a)[4..];
    assert DecimalString(b) == DefaultName(b)[4..];
    DecimalStringInjective(a, b);
  }

  /** n distinct default nicknames all in names: names has at least n elements. */
  lemma {:induction false} DefaultNamesBound(names: set<string>, n: nat)
    requires forall k :: 0 <= k < n ==> DefaultName(k) in names
    ensures n <= |names|
  {
    if n > 0 {
      var rest := names - {DefaultName(n - 1)};
      forall k | 0 <= k < n - 1
        ensures DefaultName(k) in rest
      {
        if DefaultName(k) == DefaultName(n - 1) {
          DefaultNameInjective(k, n - 1);
        }
      }
      DefaultNamesBound(rest, n - 1);
    }
  }

  lemma DefaultNameIsValid(n: nat)
    ensures ValidName(DefaultName(n))
  {
    var s := DefaultName(n);
    forall i | 0 <= i < |s|
      ensures IsLetterOrDigit(s[i])
    {
      if i >= 4 {
        assert s[i] == DecimalString(n)[i - 4];
      }
    }
  }

  /** n is the smallest suffix whose default nickname is not among names. */
  ghost predicate IsLeastFree(names: set<string>, n: nat) {
    DefaultName(n) !in names && forall k :: 0 <= k < n ==> DefaultName(k) in names
  }

  /** nick is the default nickname a new connection receives when names are taken. */
  ghost predicate IsNextDefaultName(names: set<string>, nick: string) {
    exists n: nat :: IsLeastFree(names, n) && nick == DefaultName(n)
  }

  /** The next default nickname is unused, valid, and determined by the names in use. */
  lemma NextDefaultNameProperties(names: set<string>, a: string, b: string)
    requires IsNextDefaultName(names, a) && IsNextDefaultName(names, b)
    ensures a !in names && ValidName(a)
    ensures a == b
  {
    var m: nat :| IsLeastFree(names, m) && a == DefaultName(m);
    var n: nat :| IsLeastFree(names, n) && b == DefaultName(n);
    DefaultNameIsValid(m);
    assert m < n ==> DefaultName(m) in names;
    assert n < m ==> DefaultName(n) in names;
  }
}
