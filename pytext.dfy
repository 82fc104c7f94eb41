/** Python 2 byte strings and the two conversions the guest agent applies to
    them: `decode('ascii', 'ignore')` and `str(int)`. */
module PyText {

  /** Python's `None` next to a value. */
  datatype Option<+T> = None | Some(value: T)

  /** One byte of a Python 2 `str`, kept as a character so that literals read as in the source. */
  type Byte = c: char | c as int < 256

  /** A Python 2 `str`: a sequence of bytes. */
  type Bytes = seq<Byte>

  predicate IsAscii(c: Byte) {
    c as int < 128
  }

  predicate AllAscii(s: Bytes) {
    forall i :: 0 <= i < |s| ==> IsAscii(s[i])
  }

  /** `s.decode('ascii', 'ignore')`: every byte of 128 or above is dropped, the
      others are kept in order. */
  function Degrade(s: Bytes): (r: Bytes)
    ensures AllAscii(r)
    ensures |r| <= |s|
  {
    if s == [] then []
    else (if IsAscii(s[0]) then [s[0]] else []) + Degrade(s[1..])
  }

  /** Degradation works byte by byte, so it distributes over concatenation. */
  lemma {:induction false} DegradeConcat(a: Bytes, b: Bytes)
    ensures Degrade(a + b) == Degrade(a) + Degrade(b)
  {
    if a == [] {
      assert a + b == b;
    } else {
      assert (a + b)[0] == a[0];
      assert (a + b)[1..] == a[1..] + b;
      DegradeConcat(a[1..], b);
    }
  }

  /** Degradation changes a string exactly when it holds a non-ASCII byte. */
  lemma {:induction false} DegradeFixesAscii(s: Bytes)
    ensures Degrade(s) == s <==> AllAscii(s)
  {
    if s != [] {
      DegradeFixesAscii(s[1..]);
      if AllAscii(s) {
        assert AllAscii(s[1..]) by {
          forall i | 0 <= i < |s[1..]| ensures IsAscii(s[1..][i]) {
            assert s[1..][i] == s[i + 1];
          }
        }
        assert s == [s[0]] + s[1..];
      }
    }
  }

  /** Applying the degradation a second time changes nothing. */
  lemma DegradeIdempotent(s: Bytes)
    ensures Degrade(Degrade(s)) == Degrade(s)
  {
    DegradeFixesAscii(Degrade(s));
  }

  /** Exactly the ASCII bytes survive, each as often as it occurred, and no other byte. */
  lemma {:induction false} DegradeKeepsAsciiBytes(s: Bytes, c: Byte)
    ensures multiset(Degrade(s))[c] == if IsAscii(c) then multiset(s)[c] else 0
  {
    if s != [] {
      DegradeKeepsAsciiBytes(s[1..], c);
      assert s == [s[0]] + s[1..];
      assert multiset(s) == multiset([s[0]]) + multiset(s[1..]);
      var head: Bytes := if IsAscii(s[0]) then [s[0]] else [];
      assert multiset(Degrade(s)) == multiset(head) + multiset(Degrade(s[1..]));
    }
  }

  predicate IsDigit(c: Byte) {
    '0' <= c <= '9'
  }

  predicate AllDigits(s: Bytes) {
    forall i :: 0 <= i < |s| ==> IsDigit(s[i])
  }

  function DigitChar(d: nat): (c: Byte)
    requires d < 10
    ensures IsDigit(c) && c as int - '0' as int == d
  {
    (('0' as int) + d) as char
  }

  /** `str(n)` for a non-negative `n`: its decimal digits, most significant first. */
  function NatStr(n: nat): (s: Bytes)
    ensures |s| >= 1 && AllDigits(s)
    decreases n
  {
    if n < 10 then [DigitChar(n)] else NatStr(n / 10) + [DigitChar(n % 10)]
  }

  /** `str(i)` for any Python `int`: a minus sign before the digits of a negative number. */
  function IntStr(i: int): (s: Bytes)
    ensures |s| >= 1 && AllAscii(s)
    ensures i < 0 <==> s[0] == '-'
  {
    if i < 0 then "-" + NatStr(-i) else NatStr(i)
  }

  /** Reads a run of decimal digits back as a number. */
  function ParseNat(s: Bytes): nat
    requires AllDigits(s)
  {
    if s == [] then 0
    else ParseNat(s[..|s| - 1]) * 10 + (s[|s| - 1] as int - '0' as int)
  }

  /** A text `int()` accepts: digits, optionally after a minus sign. */
  predicate IsIntText(s: Bytes) {
    |s| >= 1 && (if s[0] == '-' then AllDigits(s[1..]) else AllDigits(s))
  }

  function ParseInt(s: Bytes): int
    requires IsIntText(s)
  {
    if s[0] == '-' then 0 - ParseNat(s[1..]) else ParseNat(s)
  }

  lemma {:induction false} NatStrRoundTrip(n: nat)
    ensures ParseNat(NatStr(n)) == n
    decreases n
  {
    if n >= 10 {
      var s := NatStr(n);
      assert s[..|s| - 1] == NatStr(n / 10);
      NatStrRoundTrip(n / 10);
    }
  }

  /** `str` on integers loses nothing: the number can be read back from its text. */
  lemma IntStrRoundTrip(i: int)
    ensures IsIntText(IntStr(i)) && ParseInt(IntStr(i)) == i
  {
    if i < 0 {
      assert IntStr(i)[1..] == NatStr(-i);
      NatStrRoundTrip(-i);
    } else {
      NatStrRoundTrip(i);
    }
  }
}
