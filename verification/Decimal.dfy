/** Printing 64-bit integers in decimal, and the "uid:handler" text made of two
    of them. */
module Decimal {
  import opened Common

  function Digit(d: nat): char
    requires d < 10
  {
    '0' + d as char
  }

  predicate IsDigit(c: char)
  {
    '0' <= c <= '9'
  }

  /** The decimal digits of a number, most significant first. */
  function Digits(n: nat): string
  {
    if n < 10 then [Digit(n)] else Digits(n / 10) + [Digit(n % 10)]
  }

  /** The number a string of digits denotes. */
  function Value(s: string): nat
    requires forall i :: 0 <= i < |s| ==> IsDigit(s[i])
  {
    if s == [] then 0
    else
      assert IsDigit(s[|s| - 1]);
      Value(s[..|s| - 1]) * 10 + (s[|s| - 1] as int - '0' as int)
  }

  lemma {:induction false} DigitsRoundTrip(n: nat)
    ensures Digits(n) != [] && forall i :: 0 <= i < |Digits(n)| ==> IsDigit(Digits(n)[i])
    ensures Value(Digits(n)) == n
  {
    if n >= 10 {
      DigitsRoundTrip(n / 10);
      assert Digits(n)[..|Digits(n)| - 1] == Digits(n / 10);
    } else {
      assert Digits(n)[..0] == [];
    }
  }

  lemma {:induction false} NoLeadingZero(n: nat)
    ensures |Digits(n)| > 1 ==> Digits(n)[0] != '0'
    ensures n > 0 ==> Digits(n)[0] != '0'
  {
    if n >= 10 {
      NoLeadingZero(n / 10);
    }
  }

  function Pow10(k: nat): nat
  {
    if k == 0 then 1 else 10 * Pow10(k - 1)
  }

  lemma {:induction false} DigitsLength(n: nat, k: nat)
    requires k > 0 && n < Pow10(k)
    ensures |Digits(n)| <= k
    decreases k
  {
    if n >= 10 {
      DigitsLength(n / 10, k - 1);
    }
  }

  /** 20 digits hold any unsigned 64-bit number. */
  lemma TwentyDigits(n: nat)
    requires n < 0x1_0000_0000_0000_0000
    ensures |Digits(n)| <= 20
  {
    assert Pow10(5) == 100_000;
    assert Pow10(10) == 10_000_000_000;
    assert Pow10(15) == 1_000_000_000_000_000;
    assert Pow10(20) == 100_000_000_000_000_000_000;
    DigitsLength(n, 20);
  }

  /** The digits as they lie in the buffer, least significant first. */
  function Backwards(s: string): string
  {
    seq(|s|, i requires 0 <= i < |s| => s[|s| - 1 - i])
  }

  /** std::reverse on the first `n` characters: two positions close in on each
      other, swapping what they meet. */
  method Reverse(buf: array<char>, n: nat)
    requires n <= buf.Length
    modifies buf
    ensures buf[..n] == Backwards(old(buf[..n]))
  {
    var first, last := 0, n;
    while last - first > 1
      invariant 0 <= first <= last && first + last == n
      invariant forall k :: 0 <= k < n ==> buf[k] == old(buf[if first <= k < last then k else n - 1 - k])
    {
      last := last - 1;
      buf[first], buf[last] := buf[last], buf[first];
      first := first + 1;
    }
  }

  /** The digits still to be written when `i` is left. */
  function Front(i: nat): string
  {
    if i == 0 then [] else Digits(i)
  }

  lemma FrontStep(i: nat)
    requires i > 0
    ensures Front(i) == Front(i / 10) + [Digit(i % 10)]
  {
  }

  lemma BackwardsAppend(s: string, c: char)
    ensures Backwards(s + [c]) == [c] + Backwards(s)
  {
  }

  /** Writes one more digit: what is in the buffer, read backwards, still follows
      what is left to be written. */
  method WriteDigit(buf: array<char>, p: nat, i: nat, ghost all: string)
    requires p < buf.Length && Front(i / 10) + [Digit(i % 10)] + Backwards(buf[..p]) == all
    modifies buf
    ensures Front(i / 10) + Backwards(buf[..p + 1]) == all
  {
    hide Front, Backwards, Digits;
    buf[p] := Digit(i % 10);
    assert buf[..p + 1] == old(buf[..p]) + [Digit(i % 10)];
    BackwardsAppend(old(buf[..p]), Digit(i % 10));
    assert Front(i / 10) + ([Digit(i % 10)] + Backwards(old(buf[..p]))) == all;
  }

  /** Digits are written least first into a 32-byte buffer, which neither they nor
      the terminator overrun, and then reversed. */
  method Uint64ToString(value: nat) returns (s: string)
    requires value < 0x1_0000_0000_0000_0000
    ensures s == Digits(value)
  {
    TwentyDigits(value);
    assert Front(value / 10) + [Digit(value % 10)] == Digits(value);
    assert Backwards([]) == [] && Front(0) == [];
    hide Front, Backwards, Digits;
    var buf := new char[32];
    buf[31] := '\0';
    var i: nat, p: nat := value, 0;
    assert buf[..0] == [];
    WriteDigit(buf, p, i, Digits(value));
    i, p := i / 10, p + 1;
    while i != 0
      invariant p <= 32 && Front(i) + Backwards(buf[..p]) == Digits(value)
      decreases i
    {
      FrontStep(i);
      WriteDigit(buf, p, i, Digits(value));
      i, p := i / 10, p + 1;
    }
    assert Backwards(buf[..p]) == Digits(value);
    ghost var was := buf[..p];
    buf[p] := '\0';
    assert buf[..p] == was;
    Reverse(buf, p);
    s := buf[..p];
  }

  /** LLToStr: writes the digits from the end of the buffer towards its front. */
  method LLToStr(value: nat, buf: array<char>, end: nat) returns (ptr: nat)
    requires end < buf.Length && |Digits(value)| <= end
    modifies buf
    ensures ptr <= end && buf[ptr..end] == Digits(value)
    ensures buf[end] == old(buf[end])
  {
    ptr := end - 1;
    buf[ptr] := Digit(value % 10);
    var v: nat := value / 10;
    while v != 0
      invariant ptr < end && Front(v) + buf[ptr..end] == Digits(value)
      invariant buf[end] == old(buf[end])
      decreases v
    {
      ptr := ptr - 1;
      buf[ptr] := Digit(v % 10);
      v := v / 10;
    }
  }

  /** Every int64 but the least, whose negation overflows. */
  method Int64ToString(value: int) returns (s: string)
    requires -0x8000_0000_0000_0000 < value < 0x8000_0000_0000_0000
    ensures s == Signed(value) && ReadSigned(s) == Some(value)
  {
    SignedRoundTrip(value);
    var buf := new char[32];
    buf[31] := '\0';
    var magnitude := if value >= 0 then value else -value;
    TwentyDigits(magnitude);
    var ptr := LLToStr(magnitude, buf, 31);
    s := if value >= 0 then buf[ptr..31] else "-" + buf[ptr..31];
  }

  function Signed(value: int): string
  {
    if value >= 0 then Digits(value) else "-" + Digits(-value)
  }

  predicate AllDigits(s: string)
  {
    s != [] && forall i :: 0 <= i < |s| ==> IsDigit(s[i])
  }

  /** A reader of signed numbers: an optional minus sign and then digits. */
  function ReadSigned(s: string): Option<int>
  {
    if s != [] && s[0] == '-' then
      if AllDigits(s[1..]) then var v: int := Value(s[1..]); Some(-v) else None
    else if AllDigits(s) then Some(Value(s))
    else None
  }

  /** Reading a printed number gives it back, and it starts with a minus sign exactly
      when it is negative. */
  lemma SignedRoundTrip(value: int)
    ensures ReadSigned(Signed(value)) == Some(value)
    ensures Signed(value)[0] == '-' <==> value < 0
  {
    hide Digits, Value;
    var n := if value >= 0 then value else -value;
    DigitsRoundTrip(n);
    assert IsDigit(Digits(n)[0]);
    if value < 0 {
      assert Signed(value)[1..] == Digits(n);
    }
  }

  /** Printing determines the number. */
  lemma SignedInjective(a: int, b: int)
    requires Signed(a) == Signed(b)
    ensures a == b
  {
    hide Signed, ReadSigned;
    SignedRoundTrip(a);
    SignedRoundTrip(b);
  }

  /** The text published for a user's handler. */
  function RouteText(uid: int, handler: nat): string
  {
    Signed(uid) + ":" + Digits(handler)
  }

  lemma SignedHasNoColon(a: int)
    ensures ':' !in Signed(a)
  {
    DigitsRoundTrip(if a >= 0 then a else -a);
  }

  /** Where the first `c` is, or the end. */
  function IndexOf(s: string, c: char): (k: nat)
    ensures k <= |s| && (k < |s| ==> s[k] == c) && forall i :: 0 <= i < k ==> s[i] != c
  {
    if s == [] || s[0] == c then 0 else 1 + IndexOf(s[1..], c)
  }

  /** A reader of published text: the user before the first colon, the handler
      behind it. */
  function ReadRoute(s: string): Option<(int, int)>
  {
    var k := IndexOf(s, ':');
    if k == |s| then None
    else
      var uid, handler := ReadSigned(s[..k]), ReadSigned(s[k + 1..]);
      if uid.Some? && handler.Some? then Some((uid.value, handler.value)) else None
  }

  /** Reading the published text gives both numbers back. */
  lemma RouteRoundTrip(uid: int, handler: nat)
    ensures ReadRoute(RouteText(uid, handler)) == Some((uid, handler))
  {
    hide Signed, Digits, ReadSigned;
    SignedHasNoColon(uid);
    SignedRoundTrip(uid);
    SignedRoundTrip(handler);
    SignedNat(handler);
    var s, u := RouteText(uid, handler), Signed(uid);
    FirstColon(u, Digits(handler));
    assert s[..|u|] == u && s[|u| + 1..] == Digits(handler);
  }

  lemma SignedNat(n: nat)
    ensures Signed(n) == Digits(n)
  {
  }

  lemma FirstColon(u: string, rest: string)
    requires ':' !in u
    ensures IndexOf(u + ":" + rest, ':') == |u|
  {
    hide IndexOf;
    var s := u + ":" + rest;
    assert s[|u|] == ':' && forall i :: 0 <= i < |u| ==> s[i] == u[i];
  }

  /** So it determines them. */
  lemma RouteTextInjective(uid: int, handler: nat, uid': int, handler': nat)
    requires RouteText(uid, handler) == RouteText(uid', handler')
    ensures uid == uid' && handler == handler'
  {
    hide RouteText, ReadRoute;
    RouteRoundTrip(uid, handler);
    RouteRoundTrip(uid', handler');
  }
}
