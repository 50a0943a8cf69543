/** Cache keys of the status path: `status_cache_key` and the bare backend key, `src/net/server.rs`. */
module StatusKeys {
  /** A backend address by its textual IP and its port. */
  datatype Addr = Addr(ip: string, port: nat)

  /** IP addresses print as hex digits, dots and colons. */
  predicate Printable(a: Addr) {
    '|' !in a.ip
  }

  function Digit(n: nat): char
    requires n < 10
  {
    "0123456789"[n]
  }

  function Decimal(n: nat): (s: string)
    ensures s != []
  {
    if n < 10 then [Digit(n)] else Decimal(n / 10) + [Digit(n % 10)]
  }

  function DecimalInt(v: int): string {
    if v < 0 then ['-'] + Decimal(-v) else Decimal(v)
  }

  function LowerChar(c: char): char {
    if 'A' <= c <= 'Z' then (c as int + 32) as char else c
  }

  function Lower(s: string): string {
    if s == [] then [] else [LowerChar(s[0])] + Lower(s[1..])
  }

  function BackendKey(a: Addr): string {
    a.ip + [':'] + Decimal(a.port)
  }

  function StatusKey(a: Addr, host: string, protocol: int): string {
    BackendKey(a) + ['|'] + (Lower(host) + ['|'] + DecimalInt(protocol))
  }

  // ----- decimal text -----

  predicate IsDigit(c: char) {
    '0' <= c <= '9'
  }

  lemma {:induction false} DecimalIsDigits(n: nat)
    ensures forall k :: 0 <= k < |Decimal(n)| ==> IsDigit(Decimal(n)[k])
  {
    if n >= 10 {
      DecimalIsDigits(n / 10);
    }
  }

  lemma {:induction false} DecimalInjective(a: nat, b: nat)
    requires Decimal(a) == Decimal(b)
    ensures a == b
  {
    assert a < 10 <==> |Decimal(a)| == 1;
    assert b < 10 <==> |Decimal(b)| == 1;
    if a >= 10 {
      var s, t := Decimal(a / 10), Decimal(b / 10);
      assert Decimal(a)[..|s|] == s && Decimal(b)[..|t|] == t;
      assert Decimal(a)[|s|] == Digit(a % 10) && Decimal(b)[|t|] == Digit(b % 10);
      DecimalInjective(a / 10, b / 10);
    }
  }

  lemma DecimalIntInjective(a: int, b: int)
    requires DecimalInt(a) == DecimalInt(b)
    ensures a == b
  {
    var x, y := if a < 0 then -a else a, if b < 0 then -b else b;
    DecimalIsDigits(x);
    DecimalIsDigits(y);
    assert !IsDigit('-');
    assert a < 0 <==> DecimalInt(a)[0] == '-';
    assert b < 0 <==> DecimalInt(b)[0] == '-';
    if a < 0 {
      assert DecimalInt(a)[1..] == Decimal(-a) && DecimalInt(b)[1..] == Decimal(-b);
    }
    DecimalInjective(x, y);
  }

  lemma DecimalIntAvoids(v: int, c: char)
    requires !IsDigit(c) && c != '-'
    ensures c !in DecimalInt(v)
  {
    DecimalIsDigits(if v < 0 then -v else v);
  }

  // ----- splitting at a separator -----

  lemma FirstSeparator(a: string, x: string, b: string, y: string, sep: char)
    requires a + [sep] + x == b + [sep] + y && sep !in a && sep !in b
    ensures a == b && x == y
  {
    var s := a + [sep] + x;
    assert s[|a|] == sep && s[|b|] == sep;
    assert forall k :: 0 <= k < |a| ==> s[k] == a[k];
    assert forall k :: 0 <= k < |b| ==> s[k] == b[k];
    assert |a| == |b|;
    assert s[..|a|] == a && s[..|b|] == b;
    assert s[|a| + 1..] == x && s[|b| + 1..] == y;
  }

  lemma LastSeparator(a: string, x: string, b: string, y: string, sep: char)
    requires a + [sep] + x == b + [sep] + y && sep !in x && sep !in y
    ensures a == b && x == y
  {
    var s := a + [sep] + x;
    assert s[|a|] == sep && s[|b|] == sep;
    assert forall k :: |a| < k < |s| ==> s[k] == x[k - |a| - 1];
    assert forall k :: |b| < k < |s| ==> s[k] == y[k - |b| - 1];
    assert |a| == |b|;
    assert s[..|a|] == a && s[..|b|] == b;
    assert s[|a| + 1..] == x && s[|b| + 1..] == y;
  }

  // ----- the keys -----

  lemma BackendKeyInjective(a: Addr, b: Addr)
    requires BackendKey(a) == BackendKey(b)
    ensures a == b
  {
    DecimalIntAvoids(a.port, ':');
    DecimalIntAvoids(b.port, ':');
    LastSeparator(a.ip, Decimal(a.port), b.ip, Decimal(b.port), ':');
    DecimalInjective(a.port, b.port);
  }

  lemma BackendKeyAvoidsBar(a: Addr)
    requires Printable(a)
    ensures '|' !in BackendKey(a)
  {
    DecimalIntAvoids(a.port, '|');
  }

  /** Response keys tell backend, case-folded host and protocol apart, even for hosts containing `|`. */
  lemma StatusKeyInjective(a: Addr, host: string, protocol: int, b: Addr, host': string, protocol': int)
    requires Printable(a) && Printable(b) && StatusKey(a, host, protocol) == StatusKey(b, host', protocol')
    ensures a == b && Lower(host) == Lower(host') && protocol == protocol'
  {
    hide DecimalInt, Lower, BackendKey;
    BackendKeyAvoidsBar(a);
    BackendKeyAvoidsBar(b);
    FirstSeparator(BackendKey(a), Lower(host) + ['|'] + DecimalInt(protocol),
                   BackendKey(b), Lower(host') + ['|'] + DecimalInt(protocol'), '|');
    BackendKeyInjective(a, b);
    DecimalIntAvoids(protocol, '|');
    DecimalIntAvoids(protocol', '|');
    LastSeparator(Lower(host), DecimalInt(protocol), Lower(host'), DecimalInt(protocol'), '|');
    DecimalIntInjective(protocol, protocol');
  }

  /** Two characters that differ at most in the case of an ASCII letter. */
  predicate SameLetter(c: char, d: char) {
    c == d || ('A' <= c <= 'Z' && d as int == c as int + 32) || ('A' <= d <= 'Z' && c as int == d as int + 32)
  }

  predicate SameHost(x: string, y: string) {
    |x| == |y| && forall k :: 0 <= k < |x| ==> SameLetter(x[k], y[k])
  }

  lemma {:induction false} LowerMeans(x: string, y: string)
    ensures Lower(x) == Lower(y) <==> SameHost(x, y)
    decreases |x|
  {
    if x != [] && y != [] {
      LowerMeans(x[1..], y[1..]);
      assert Lower(x)[0] == LowerChar(x[0]) && Lower(x)[1..] == Lower(x[1..]);
      assert Lower(y)[0] == LowerChar(y[0]) && Lower(y)[1..] == Lower(y[1..]);
      assert LowerChar(x[0]) == LowerChar(y[0]) <==> SameLetter(x[0], y[0]);
      assert x == [x[0]] + x[1..] && y == [y[0]] + y[1..];
    }
  }

  /** Exactly the pings of one backend, protocol and host up to the case of letters share a response key. */
  lemma StatusKeyIff(a: Addr, host: string, protocol: int, b: Addr, host': string, protocol': int)
    requires Printable(a) && Printable(b)
    ensures StatusKey(a, host, protocol) == StatusKey(b, host', protocol') <==> a == b && SameHost(host, host') && protocol == protocol'
  {
    LowerMeans(host, host');
    hide Lower, DecimalInt, BackendKey, SameHost;
    if StatusKey(a, host, protocol) == StatusKey(b, host', protocol') {
      StatusKeyInjective(a, host, protocol, b, host', protocol');
    }
  }

  /** No response key is a bare backend key. */
  lemma StatusKeyIsNoBackendKey(a: Addr, host: string, protocol: int, b: Addr)
    requires Printable(b)
    ensures StatusKey(a, host, protocol) != BackendKey(b)
  {
    hide DecimalInt, Lower, BackendKey;
    BackendKeyAvoidsBar(b);
    assert StatusKey(a, host, protocol)[|BackendKey(a)|] == '|';
  }
}
