/**
 * The Host header value a WebSocket client sends in its opening handshake:
 * the server address, a ':' and the decimal port (section 5.4 of RFC 7230),
 * and the decimal rendering of a 16-bit port that it is built from.
 * SplitHost reads such a value back; the lemmas at the end show that the two
 * are inverse to each other.
 */
module Host {

  import opened Wrappers

  /** A TCP port, the source's `unsigned short`. */
  type Port = n: int | 0 <= n < 0x1_0000

  predicate IsDigit(c: char) {
    '0' <= c <= '9'
  }

  function DigitChar(d: nat): (c: char)
    requires d < 10
    ensures IsDigit(c) && c as int - '0' as int == d
  {
    ('0' as int + d) as char
  }

  function DigitValue(c: char): (d: nat)
    requires IsDigit(c)
    ensures d < 10 && DigitChar(d) == c
  {
    c as int - '0' as int
  }

  /** A numeral as `std::to_string` writes an unsigned value: decimal digits only, no leading zero. */
  predicate Canonical(s: string) {
    && |s| >= 1
    && (forall i :: 0 <= i < |s| ==> IsDigit(s[i]))
    && (s[0] == '0' ==> |s| == 1)
  }

  /** The decimal numeral of `n`, most significant digit first (`std::to_string`). */
  function Decimal(n: nat): (s: string)
    ensures |s| >= 1
    ensures forall i :: 0 <= i < |s| ==> IsDigit(s[i])
    ensures s[0] == '0' <==> n == 0
    decreases n
  {
    if n < 10 then [DigitChar(n)] else Decimal(n / 10) + [DigitChar(n % 10)]
  }

  /** The value of a string of decimal digits; a numeral that does not start with '0' denotes a positive number. */
  function ParseDecimal(s: string): (n: nat)
    requires forall i :: 0 <= i < |s| ==> IsDigit(s[i])
    ensures |s| >= 1 && s[0] != '0' ==> n > 0
    decreases |s|
  {
    if s == [] then 0 else 10 * ParseDecimal(s[..|s| - 1]) + DigitValue(s[|s| - 1])
  }

  /** The index of the last ':' in `s`, or None when `s` holds none. */
  function LastColon(s: string): (r: Option<nat>)
    ensures r.Some? ==> r.value < |s| && s[r.value] == ':' && forall i :: r.value < i < |s| ==> s[i] != ':'
    ensures r.None? ==> forall i :: 0 <= i < |s| ==> s[i] != ':'
    decreases |s|
  {
    if s == [] then None
    else if s[|s| - 1] == ':' then Some(|s| - 1)
    else LastColon(s[..|s| - 1])
  }

  /**
   * The Host value the client builds in `on_connect`: the address, ':' and the
   * port in decimal. No ':' follows the one after the address, however many
   * the address itself holds.
   */
  function HostValue(address: string, port: Port): (h: string)
    ensures |h| == |address| + 1 + |Decimal(port)|
    ensures h[..|address|] == address && h[|address|] == ':' && h[|address| + 1..] == Decimal(port)
    ensures forall i :: |address| < i < |h| ==> h[i] != ':'
  {
    var h := address + [':'] + Decimal(port);
    assert forall i :: |address| < i < |h| ==> h[i] == Decimal(port)[i - |address| - 1];
    h
  }

  /**
   * Reads a Host value back: the text before the last ':' is the address,
   * the text after it must be a canonical numeral below 65536.
   */
  function SplitHost(h: string): (r: Option<(string, Port)>)
    ensures r.Some? ==> |r.value.0| < |h| && h[|r.value.0|] == ':' && Canonical(h[|r.value.0| + 1..])
  {
    match LastColon(h)
    case None => None
    case Some(i) =>
      var digits := h[i + 1..];
      if Canonical(digits) && ParseDecimal(digits) < 0x1_0000 then Some((h[..i], ParseDecimal(digits))) else None
  }

  lemma {:induction false} ParseDecimalOfDecimal(n: nat)
    ensures ParseDecimal(Decimal(n)) == n
    decreases n
  {
    if n >= 10 {
      var s := Decimal(n);
      assert s[..|s| - 1] == Decimal(n / 10);
      ParseDecimalOfDecimal(n / 10);
    }
  }

  lemma {:induction false} DecimalOfParseDecimal(s: string)
    requires Canonical(s)
    ensures Decimal(ParseDecimal(s)) == s
    decreases |s|
  {
    var last := s[|s| - 1];
    if |s| == 1 {
      assert s == [last];
    } else {
      var init := s[..|s| - 1];
      assert Canonical(init);
      DecimalOfParseDecimal(init);
      var n := ParseDecimal(s);
      assert n == 10 * ParseDecimal(init) + DigitValue(last);
      assert n / 10 == ParseDecimal(init) && n % 10 == DigitValue(last);
      assert s == init + [last];
    }
  }

  /** Decimal is the canonical numeral of its argument, so equal numerals denote equal numbers. */
  lemma DecimalInjective(a: nat, b: nat)
    ensures Decimal(a) == Decimal(b) <==> a == b
  {
    if Decimal(a) == Decimal(b) {
      ParseDecimalOfDecimal(a);
      ParseDecimalOfDecimal(b);
    }
  }

  /** A Host value's last ':' is the one after the address, as a numeral holds none. */
  lemma LastColonOfHostValue(address: string, port: Port)
    ensures LastColon(HostValue(address, port)) == Some(|address|)
  {
    var h, digits := HostValue(address, port), Decimal(port);
    assert h[|address|] == ':';
    assert forall i :: |address| < i < |h| ==> h[i] == digits[i - |address| - 1];
  }

  /** Splitting a Host value gives back the address and the port it was built from. */
  lemma SplitHostValue(address: string, port: Port)
    ensures SplitHost(HostValue(address, port)) == Some((address, port))
  {
    var h := HostValue(address, port);
    LastColonOfHostValue(address, port);
    assert h[|address| + 1..] == Decimal(port) && h[..|address|] == address;
    ParseDecimalOfDecimal(port);
  }

  /** Only Host values split: a string that splits is the Host value of its parts. */
  lemma SplitIsHostValue(h: string, address: string, port: Port)
    requires SplitHost(h) == Some((address, port))
    ensures h == HostValue(address, port)
  {
    var i := LastColon(h).value;
    var digits := h[i + 1..];
    DecimalOfParseDecimal(digits);
    assert h == h[..i] + [':'] + digits;
  }

  /**
   * The Host value determines the address and the port: splitting at the last
   * ':' gives back exactly the pair it was built from, and the only strings that
   * split to a pair are the Host values of that pair.
   */
  lemma HostValueRoundTrip(h: string, address: string, port: Port)
    ensures SplitHost(h) == Some((address, port)) <==> h == HostValue(address, port)
  {
    if h == HostValue(address, port) {
      SplitHostValue(address, port);
    }
    if SplitHost(h) == Some((address, port)) {
      SplitIsHostValue(h, address, port);
    }
  }
}
