/** Log positions and their text form, `crates/pglite/src/replica/meta.rs`. */
module Lsn {
  import opened Wrappers
  import PgOutput

  type Lsn = PgOutput.U64

  const HALF := 0x1_0000_0000
  const LIMIT := 0x1_0000_0000_0000_0000

  // ---- Printing: two upper-case hexadecimal halves without padding ----

  function DigitChar(d: nat): char
    requires d < 16
  {
    if d < 10 then '0' + d as char else 'A' + (d - 10) as char
  }

  function Hex(n: nat): (s: string)
    ensures s != ""
  {
    if n < 16 then [DigitChar(n)] else Hex(n / 16) + [DigitChar(n % 16)]
  }

  function ToPgStr(x: Lsn): string { Hex(x / HALF) + "/" + Hex(x % HALF) }

  // ---- Parsing ----

  function DigitValue(c: char): Option<nat> {
    if '0' <= c <= '9' then Some(c as int - '0' as int)
    else if 'A' <= c <= 'F' then Some(c as int - 'A' as int + 10)
    else if 'a' <= c <= 'f' then Some(c as int - 'a' as int + 10)
    else None
  }

  /** The value of a digit string, unless a character is not a digit or 64 bits overflow. */
  function Digits(s: string): Option<nat> {
    if s == "" then Some(0)
    else
      var v :- Digits(s[..|s| - 1]);
      var d :- DigitValue(s[|s| - 1]);
      if v * 16 + d < LIMIT then Some(v * 16 + d) else None
  }

  /** `u64::from_str_radix(s, 16)`: one leading plus sign is allowed, no digit at all is not. */
  function ParseHex(s: string): Option<nat> {
    var digits := if s != "" && s[0] == '+' then s[1..] else s;
    if digits == "" then None else Digits(digits)
  }

  /** `s.split_once('/')`. */
  function SplitOnce(s: string): Option<(string, string)> {
    if s == "" then None
    else if s[0] == '/' then Some(("", s[1..]))
    else
      var (a, b) :- SplitOnce(s[1..]);
      Some(([s[0]] + a, b))
  }

  function FromPgStr(s: string): (r: Result<Lsn>) {
    match SplitOnce(s)
    case None => Failure(BadLsn)
    case Some((a, b)) =>
      match (ParseHex(a), ParseHex(b))
      case (Some(hi), Some(lo)) =>
        if hi >= HALF || lo >= HALF then Failure(BadLsn) else Success(hi * HALF + lo)
      case _ => Failure(BadLsn)
  }

  // ---- Round trip ----

  lemma {:induction false} DigitsOfHex(n: nat)
    requires n < LIMIT
    ensures Digits(Hex(n)) == Some(n)
    ensures forall c | c in Hex(n) :: c != '/' && c != '+'
  {
    if n >= 16 {
      DigitsOfHex(n / 16);
      assert Hex(n)[..|Hex(n)| - 1] == Hex(n / 16);
    } else {
      assert Hex(n)[..0] == "";
    }
  }

  lemma {:induction false} SplitAt(a: string, b: string)
    requires '/' !in a
    ensures SplitOnce(a + "/" + b) == Some((a, b))
  {
    var s := a + "/" + b;
    if a == "" {
      assert s[1..] == b;
    } else {
      SplitAt(a[1..], b);
      assert s[1..] == a[1..] + "/" + b;
      assert [a[0]] + a[1..] == a;
    }
  }

  lemma ReadsBack(n: nat)
    requires n < LIMIT
    ensures ParseHex(Hex(n)) == Some(n)
  {
    DigitsOfHex(n);
    assert Hex(n)[0] in Hex(n);
  }

  lemma RoundTrip(x: Lsn)
    ensures FromPgStr(ToPgStr(x)) == Success(x)
  {
    DigitsOfHex(x / HALF);
    ReadsBack(x / HALF);
    ReadsBack(x % HALF);
    SplitAt(Hex(x / HALF), Hex(x % HALF));
  }

  // ---- The strings printed are exactly the canonical accepted ones ----

  predicate CanonicalHalf(s: string) {
    && s != ""
    && (forall c | c in s :: '0' <= c <= '9' || 'A' <= c <= 'F')
    && (s[0] == '0' ==> |s| == 1)
  }

  predicate Canonical(s: string) {
    match SplitOnce(s)
    case None => false
    case Some((a, b)) => CanonicalHalf(a) && CanonicalHalf(b)
  }

  lemma {:induction false} HexIsCanonical(n: nat)
    ensures CanonicalHalf(Hex(n))
    ensures Hex(n)[0] == '0' <==> n == 0
  {
    if n < 16 {
    } else {
      HexIsCanonical(n / 16);
      assert Hex(n)[0] == Hex(n / 16)[0];
    }
  }

  lemma DigitBack(c: char)
    requires '0' <= c <= '9' || 'A' <= c <= 'F'
    ensures DigitValue(c).Some? && DigitValue(c).value < 16 && DigitChar(DigitValue(c).value) == c
  {
  }

  /** A digit string without a leading zero is the print of its value. */
  lemma {:induction false} HexOfDigits(s: string)
    requires CanonicalHalf(s) && Digits(s).Some?
    ensures Hex(Digits(s).value) == s
    ensures Digits(s).value == 0 <==> s[0] == '0'
  {
    var n := |s| - 1;
    assert s[n] in s;
    DigitBack(s[n]);
    if n == 0 {
      assert s[..0] == "" && s == [s[0]];
    } else {
      assert forall c | c in s[..n] :: c in s;
      HexOfDigits(s[..n]);
      assert s == s[..n] + [s[n]];
      var v, d := Digits(s[..n]).value, DigitValue(s[n]).value;
      assert Digits(s).value == v * 16 + d;
      assert (v * 16 + d) / 16 == v && (v * 16 + d) % 16 == d;
    }
  }

  lemma {:induction false} SplitJoins(s: string)
    requires SplitOnce(s).Some?
    ensures var (a, b) := SplitOnce(s).value; s == a + "/" + b && '/' !in a
  {
    if s[0] == '/' {
    } else {
      SplitJoins(s[1..]);
    }
  }

  lemma CanonicalPrints(s: string)
    requires FromPgStr(s).Success? && Canonical(s)
    ensures s == ToPgStr(FromPgStr(s).value)
  {
    var (a, b) := SplitOnce(s).value;
    SplitJoins(s);
    HalfPrints(a);
    HalfPrints(b);
    hide CanonicalHalf;
    hide Hex;
    hide ParseHex;
    Halves(ParseHex(a).value, ParseHex(b).value);
  }

  lemma HalfPrints(a: string)
    requires CanonicalHalf(a) && ParseHex(a).Some?
    ensures Hex(ParseHex(a).value) == a
  {
    assert a[0] in a;
    HexOfDigits(a);
  }

  lemma Halves(hi: nat, lo: nat)
    requires lo < HALF
    ensures (hi * HALF + lo) / HALF == hi && (hi * HALF + lo) % HALF == lo
  {
  }

  lemma PrintIsCanonical(x: Lsn)
    ensures Canonical(ToPgStr(x))
  {
    HexIsCanonical(x / HALF);
    HexIsCanonical(x % HALF);
    DigitsOfHex(x / HALF);
    SplitAt(Hex(x / HALF), Hex(x % HALF));
  }

  /** An accepted string is the one printed for its value exactly when it is canonical;
      any other accepted spelling names the same position as a canonical one. */
  lemma AcceptedIsPrinted(s: string)
    requires FromPgStr(s).Success?
    ensures s == ToPgStr(FromPgStr(s).value) <==> Canonical(s)
    ensures Canonical(ToPgStr(FromPgStr(s).value))
    ensures FromPgStr(ToPgStr(FromPgStr(s).value)) == FromPgStr(s)
  {
    hide Canonical;
    hide ToPgStr;
    var x := FromPgStr(s).value;
    RoundTrip(x);
    PrintIsCanonical(x);
    if Canonical(s) {
      CanonicalPrints(s);
    }
  }

  /** Numeric order is the lexicographic order of the halves. */
  lemma OrderOfHalves(x: Lsn, y: Lsn)
    ensures x < y <==> x / HALF < y / HALF || (x / HALF == y / HALF && x % HALF < y % HALF)
  {
  }
}
