/** C strings in character buffers, and decimal numbers printed and read back. */
module CText {
  const NUL: char := '\0'

  /** Position of the first `c`, or the length if there is none. */
  function Find(s: string, c: char): (n: nat)
    ensures n <= |s|
    ensures forall i :: 0 <= i < n ==> s[i] != c
    ensures n < |s| ==> s[n] == c
  {
    if s == "" || s[0] == c then 0 else 1 + Find(s[1..], c)
  }

  /** The C string a buffer holds: its characters before the first NUL. */
  function CStr(s: string): (t: string)
    ensures t <= s && NUL !in t
    ensures |t| < |s| ==> s[|t|] == NUL
  {
    s[..Find(s, NUL)]
  }

  /** There is one first position. */
  lemma {:induction false} FindIs(s: string, c: char, n: nat)
    requires n <= |s| && (forall i :: 0 <= i < n ==> s[i] != c) && (n < |s| ==> s[n] == c)
    ensures Find(s, c) == n
  {
  }

  lemma {:induction false} CStrWhole(s: string)
    requires NUL !in s
    ensures CStr(s) == s
  {
  }

  /** In plain terms. */
  lemma {:induction false} CStrPlainly(t: string, rest: string)
    requires '\0' !in t && (rest == "" || rest[0] == '\0')
    ensures CStr(t + rest) == t
  {
    FindIs(t + rest, NUL, |t|);
  }

  // ---- Decimal numbers ----

  predicate IsDigit(c: char) {
    '0' <= c <= '9'
  }

  /** isspace in the C locale. */
  predicate IsSpace(c: char) {
    c == ' ' || '\t' <= c <= '\r'
  }

  function DigitOf(n: nat): (c: char)
    requires n < 10
    ensures IsDigit(c)
  {
    '0' + n as char
  }

  function ValueOf(c: char): nat
    requires IsDigit(c)
  {
    c as nat - '0' as nat
  }

  /** What "%d" prints for a number that is not negative. */
  function Decimal(n: nat): (s: string)
    ensures s != "" && forall i :: 0 <= i < |s| ==> IsDigit(s[i])
  {
    if n < 10 then [DigitOf(n)] else Decimal(n / 10) + [DigitOf(n % 10)]
  }

  /** In plain terms: the digits one by one, the highest first. */
  lemma {:induction false} DecimalPlainly(n: nat, d: nat)
    requires d < 10
    ensures Decimal(d) == ["0123456789"[d]]
    ensures n > 0 ==> Decimal(10 * n + d) == Decimal(n) + ["0123456789"[d]]
  {
    assert DigitOf(d) == "0123456789"[d];
    assert (10 * n + d) / 10 == n && (10 * n + d) % 10 == d;
  }

  /** The digits at the front of `s`, after a number `n` has been read. */
  function AfterDigits(n: nat, s: string): nat
    decreases |s|
  {
    if s == "" || !IsDigit(s[0]) then n else AfterDigits(10 * n + ValueOf(s[0]), s[1..])
  }

  /** atoi, without its undefined overflow: blanks, a sign, digits. */
  function Atoi(s: string): int {
    if s != "" && IsSpace(s[0]) then Atoi(s[1..])
    else if s != "" && s[0] == '-' then 0 - AfterDigits(0, s[1..])
    else if s != "" && s[0] == '+' then AfterDigits(0, s[1..])
    else AfterDigits(0, s)
  }

  lemma {:induction false} AfterDigitsOn(n: nat, s: string, t: string)
    requires forall i :: 0 <= i < |s| ==> IsDigit(s[i])
    ensures AfterDigits(n, s + t) == AfterDigits(AfterDigits(n, s), t)
    decreases |s|
  {
    if s == "" {
      assert s + t == t;
    } else {
      assert (s + t)[1..] == s[1..] + t;
      AfterDigitsOn(10 * n + ValueOf(s[0]), s[1..], t);
    }
  }

  lemma {:induction false} DecimalValue(n: nat)
    ensures AfterDigits(0, Decimal(n)) == n
  {
    if n < 10 {
      assert ValueOf(DigitOf(n)) == n;
      assert Decimal(n)[1..] == "";
    } else {
      DecimalValue(n / 10);
      var last := [DigitOf(n % 10)];
      AfterDigitsOn(0, Decimal(n / 10), last);
      assert last[1..] == "";
      assert ValueOf(last[0]) == n % 10;
    }
  }

  /** atoi reads back what "%d" printed, if no digit follows. */
  lemma {:induction false} AtoiDecimal(n: nat, rest: string)
    requires rest == "" || !IsDigit(rest[0])
    ensures Atoi(Decimal(n) + rest) == n
  {
    assert IsDigit((Decimal(n) + rest)[0]);
    AfterDigitsOn(0, Decimal(n), rest);
    DecimalValue(n);
  }

  /** Blanks in front do not matter. */
  lemma {:induction false} AtoiBlankPlainly(c: char, t: string)
    requires c == ' ' || c == '\t' || c == '\n' || c == '\U{000B}' || c == '\U{000C}' || c == '\r'
    ensures Atoi([c] + t) == Atoi(t)
  {
    assert ([c] + t)[1..] == t;
  }

  /** The digits in front count, with one sign; where there are none there is 0. */
  lemma {:induction false} AtoiPlainly(digits: string, rest: string)
    requires forall i :: 0 <= i < |digits| ==> '0' <= digits[i] <= '9'
    requires rest == "" || (rest[0] != '+' && rest[0] != '-' && rest[0] != ' '
                            && !('\t' <= rest[0] <= '\r') && !('0' <= rest[0] <= '9'))
    ensures Atoi(rest) == 0
    ensures Atoi("+" + digits + rest) == Atoi(digits + rest) == Atoi(digits)
    ensures Atoi("-" + digits + rest) == 0 - Atoi(digits)
  {
    hide AfterDigits;
    assert ("+" + digits + rest)[1..] == ("-" + digits + rest)[1..] == digits + rest;
    assert digits == "" ==> digits + rest == rest;
    NoDigits(0, rest);
    NoDigits(AfterDigits(0, digits), rest);
    AfterDigitsOn(0, digits, rest);
  }

  lemma {:induction false} NoDigits(n: nat, rest: string)
    requires rest == "" || !('0' <= rest[0] <= '9')
    ensures AfterDigits(n, rest) == n
  {
  }

  /** Each further digit makes the number ten times larger and adds its own value. */
  lemma {:induction false} AtoiDigitPlainly(digits: string, d: nat)
    requires d < 10 && forall i :: 0 <= i < |digits| ==> '0' <= digits[i] <= '9'
    ensures Atoi(digits + ["0123456789"[d]]) == 10 * Atoi(digits) + d
  {
    var last := ["0123456789"[d]];
    assert IsDigit(last[0]) && ValueOf(last[0]) == d && last[1..] == "";
    assert digits == "" ==> digits + last == last;
    AfterDigitsOn(0, digits, last);
  }

  const INT_MAX: int := 0x7fff_ffff

  /** The cast of a length to a 32-bit int. */
  function ToInt(n: nat): (i: int)
    ensures -INT_MAX - 1 <= i <= INT_MAX && i <= n
    ensures i == n <==> n <= INT_MAX
    ensures (n - i) % 0x1_0000_0000 == 0
  {
    var low := n % 0x1_0000_0000;
    if low <= INT_MAX then low else low - 0x1_0000_0000
  }

  /** "%d". */
  function PrintInt(n: int): (s: string)
    ensures s != "" && (IsDigit(s[0]) || s[0] == '-') && forall i :: 1 <= i < |s| ==> IsDigit(s[i])
  {
    if n < 0 then "-" + Decimal(-n) else Decimal(n)
  }

  lemma {:induction false} DecimalIsShort(n: nat, bound: nat, k: nat)
    requires k > 0 && n < bound && bound == Power(k)
    ensures |Decimal(n)| <= k
    decreases k
  {
    if n >= 10 {
      DecimalIsShort(n / 10, Power(k - 1), k - 1);
    }
  }

  function Power(k: nat): nat {
    if k == 0 then 1 else 10 * Power(k - 1)
  }

  lemma {:induction false} IntIsShort(n: int)
    requires -INT_MAX - 1 <= n <= INT_MAX
    ensures |PrintInt(n)| <= 11
  {
    assert Power(10) == 10000000000;
    DecimalIsShort(if n < 0 then -n else n, Power(10), 10);
  }

  lemma {:induction false} AtoiPrintInt(n: int)
    ensures Atoi(PrintInt(n)) == n
  {
    var m := if n < 0 then -n else n;
    assert Decimal(m) + "" == Decimal(m);
    AtoiDecimal(m, "");
    DecimalValue(m);
    assert n < 0 ==> PrintInt(n)[1..] == Decimal(m);
  }

  /** The buffer holds the C string `s` at `from`. */
  ghost predicate HoldsAt(a: array<char>, from: nat, s: string)
    reads a
  {
    && from + |s| < a.Length
    && (forall i :: 0 <= i < |s| ==> a[from + i] == s[i] != NUL)
    && a[from + |s|] == NUL
  }

  /** strchr: the first `c` of the C string at `from`, or -1. */
  method StrChr(a: array<char>, from: nat, c: char, ghost s: string) returns (p: int)
    requires HoldsAt(a, from, s) && c != NUL
    ensures p == if Find(s, c) < |s| then from + Find(s, c) else -1
  {
    var i := 0;
    while a[from + i] != NUL
      invariant i <= |s| && (i < |s| ==> a[from + i] == s[i])
      invariant forall j :: 0 <= j < i ==> s[j] != c
      decreases |s| - i
    {
      if a[from + i] == c {
        FindIs(s, c, i);
        return from + i;
      }
      i := i + 1;
    }
    FindIs(s, c, |s|);
    return -1;
  }

  /** strncmp with `prefix` and its length: whether the C string at `from` begins with it. */
  method BeginsWith(a: array<char>, from: nat, prefix: string, ghost s: string) returns (b: bool)
    requires HoldsAt(a, from, s) && NUL !in prefix
    ensures b <==> prefix <= s
  {
    var i := 0;
    while i < |prefix|
      invariant i <= |prefix| && i <= |s| && (i < |s| ==> a[from + i] == s[i])
      invariant forall k :: 0 <= k < i ==> prefix[k] == s[k]
    {
      if a[from + i] != prefix[i] {
        return false;
      }
      i := i + 1;
    }
    return true;
  }

  /** strlen of the C string at `from`. */
  method StrLen(a: array<char>, from: nat, ghost s: string) returns (n: nat)
    requires HoldsAt(a, from, s)
    ensures n == |s|
  {
    n := 0;
    while a[from + n] != NUL
      invariant n <= |s| && (n < |s| ==> a[from + n] == s[n])
      decreases |s| - n
    {
      n := n + 1;
    }
  }

  /** realloc: sixteen characters more room, and what was there before. */
  method Grow(buffer: array<char>, len: nat) returns (bigger: array<char>)
    requires len <= buffer.Length
    ensures fresh(bigger) && bigger.Length == buffer.Length + 16 && bigger[..len] == buffer[..len]
  {
    var kept := buffer[..len];
    bigger := new char[buffer.Length + 16](i => if 0 <= i < |kept| then kept[i] else NUL);
  }
}
