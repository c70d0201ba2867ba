/** Parsing and printing the addresses a server listens to. */
module HostAndPort {
  import opened Options

  datatype Address = Address(host: string, port: int)

  datatype Result<T> = Ok(value: T) | ValueError

  /** What is asked of the standard library: which texts are IPv6 addresses, which characters are whitespace, and which
      are decimal digits (with their value; ten for any other character). */
  datatype Tables = Tables(ipv6: string -> bool, space: char -> bool, digit: char -> nat)

  ghost predicate Standard(t: Tables) {
    && !t.ipv6("")
    && (forall c :: '0' <= c <= '9' ==> t.digit(c) == c as int - '0' as int && !t.space(c))
    && (forall c :: c == ':' || c == '-' || c == '+' || c == '_' || c == '[' || c == ']' || c == '\n' ==>
        t.digit(c) == 10)
    && t.space('\n')
    && (forall c :: c == ':' || c == '-' || c == '+' || c == '_' || c == ']' ==> !t.space(c))
  }

  // ---------------------------------------------------------------- str.strip and int

  function StripLeft(t: Tables, s: string): (r: string)
    ensures r == s || (s != "" && t.space(s[0]))
    ensures r != "" ==> !t.space(r[0])
    ensures |r| <= |s|
  {
    if s != "" && t.space(s[0]) then StripLeft(t, s[1..]) else s
  }

  function StripRight(t: Tables, s: string): (r: string)
    ensures r <= s && (r == s || t.space(s[|s| - 1]))
    ensures r != "" ==> !t.space(r[|r| - 1])
  {
    if s != "" && t.space(s[|s| - 1]) then StripRight(t, s[..|s| - 1]) else s
  }

  function Strip(t: Tables, s: string): string { StripRight(t, StripLeft(t, s)) }

  /** The value of digits with single underscores between them; `last` says that a digit has just been read. */
  function Digits(t: Tables, s: string, value: nat, last: bool): Result<nat> {
    if s == "" then (if last then Ok(value) else ValueError)
    else if t.digit(s[0]) < 10 then Digits(t, s[1..], value * 10 + t.digit(s[0]), true)
    else if s[0] == '_' && last then Digits(t, s[1..], value, false)
    else ValueError
  }

  /** `int(text)`. */
  function Integer(t: Tables, text: string): Result<int> {
    var s := Strip(t, text);
    if s != "" && (s[0] == '-' || s[0] == '+') then
      match Digits(t, s[1..], 0, false)
      case ValueError => ValueError
      case Ok(n) => Ok(if s[0] == '-' then 0 - n else n)
    else
      match Digits(t, s, 0, false)
      case ValueError => ValueError
      case Ok(n) => Ok(n)
  }

  // ---------------------------------------------------------------- parse

  /** The place of the first `c`, or the length. */
  function Find(s: string, c: char): (i: nat)
    ensures i <= |s| && c !in s[..i] && (i < |s| ==> s[i] == c)
  {
    if s == "" || s[0] == c then 0 else 1 + Find(s[1..], c)
  }

  predicate AllDigits(t: Tables, s: string) {
    forall i :: 0 <= i < |s| ==> t.digit(s[i]) < 10
  }

  /** A dollar sign matches before a final newline too. */
  function Chomped(s: string): string {
    if s != "" && s[|s| - 1] == '\n' then s[..|s| - 1] else s
  }

  /** The match of the bracket pattern: the host, and the port's digits or the empty text. */
  function Bracketed(t: Tables, input: string): Result<(string, string)>
    requires input != "" && input[0] == '['
  {
    var i := Find(input[1..], ']') + 1;
    if i == |input| || i == 1 then ValueError else AfterBracket(t, input[1..i], Chomped(input[i + 1..]))
  }

  function AfterBracket(t: Tables, host: string, rest: string): Result<(string, string)> {
    if rest == "" then Ok((host, ""))
    else if rest[0] == ':' && |rest| > 1 && AllDigits(t, rest[1..]) then Ok((host, rest[1..]))
    else ValueError
  }

  lemma BracketedAt(t: Tables, host: string, all: string)
    requires host != "" && ']' !in host
    ensures Bracketed(t, "[" + host + "]" + all) == AfterBracket(t, host, Chomped(all))
  {
    var input := "[" + host + "]" + all;
    assert input[1..][..|host|] == host && input[1..][|host|] == ']';
    FindAt(input[1..], ']', |host|);
    assert input[1..|host| + 1] == host && input[|host| + 2..] == all;
  }

  function Ranged(host: string, port: int): Result<Address> {
    if port < 0 || port >= 65536 then ValueError else Ok(Address(host, port))
  }

  function WithPort(t: Tables, host: string, port: string): Result<Address> {
    match Integer(t, port)
    case ValueError => ValueError
    case Ok(n) => Ranged(host, n)
  }

  function OrDefault(host: string, default: string): string { if host == "" then default else host }

  function Parse(t: Tables, input: string, defaultHost: string, defaultPort: int): Result<Address> {
    if input != "" && input[0] == '[' then
      match Bracketed(t, input)
      case ValueError => ValueError
      case Ok((host, digits)) =>
        if !t.ipv6(host) then ValueError
        else if digits == "" then Ranged(host, defaultPort) else WithPort(t, host, digits)
    else if ':' in input then
      var i := Find(input, ':');
      WithPort(t, OrDefault(Strip(t, input[..i]), defaultHost), input[i + 1..])
    else
      Ranged(OrDefault(Strip(t, input), defaultHost), defaultPort)
  }

  // ---------------------------------------------------------------- print

  function Decimal(n: nat): (s: string)
    ensures s != "" && forall i :: 0 <= i < |s| ==> '0' <= s[i] <= '9'
  {
    if n < 10 then ['0' + n as char] else Decimal(n / 10) + ['0' + (n % 10) as char]
  }

  function Signed(n: int): string { if n < 0 then "-" + Decimal(-n) else Decimal(n) }

  /** `host_and_port`. */
  function Printed(t: Tables, a: Address): string {
    (if t.ipv6(a.host) then "[" + a.host + "]" else a.host) + ":" + Signed(a.port)
  }

  /** The addresses that survive being printed: the port is a port; an IPv6 host has no closing bracket (a zone
      could); any other host has no colon, no surrounding whitespace and no opening bracket in front, and is not
      empty. */
  predicate Printable(t: Tables, a: Address) {
    && 0 <= a.port < 65536
    && if t.ipv6(a.host) then ']' !in a.host
       else a.host != "" && ':' !in a.host && a.host[0] != '[' && Strip(t, a.host) == a.host
  }

  // ---------------------------------------------------------------- printed numbers are read back

  lemma {:induction false} DigitsAppend(t: Tables, s: string, c: char, value: nat, last: bool)
    requires t.digit(c) < 10 && Digits(t, s, value, last).Ok?
    ensures Digits(t, s + [c], value, last) == Ok(Digits(t, s, value, last).value * 10 + t.digit(c))
  {
    if s != "" {
      assert (s + [c])[1..] == s[1..] + [c];
      if t.digit(s[0]) < 10 {
        DigitsAppend(t, s[1..], c, value * 10 + t.digit(s[0]), true);
      } else {
        DigitsAppend(t, s[1..], c, value, false);
      }
    }
  }

  lemma {:induction false} DigitsOfDecimal(t: Tables, n: nat)
    requires Standard(t)
    ensures Digits(t, Decimal(n), 0, false) == Ok(n)
  {
    if n >= 10 {
      DigitsOfDecimal(t, n / 10);
      DigitsAppend(t, Decimal(n / 10), '0' + (n % 10) as char, 0, false);
    }
  }

  lemma SignedIsPlain(t: Tables, n: int)
    requires Standard(t)
    ensures var s := Signed(n);
            s != "" && s[0] != ']' && '0' <= s[|s| - 1] <= '9' && !t.space(s[0]) && !t.space(s[|s| - 1]) &&
                (n >= 0 ==> AllDigits(t, s))
  {
  }

  lemma IntegerOfSigned(t: Tables, n: int)
    requires Standard(t)
    ensures Integer(t, Signed(n)) == Ok(n)
  {
    SignedIsPlain(t, n);
    StripSelf(t, Signed(n));
    if n < 0 {
      DigitsOfDecimal(t, -n);
      assert Signed(n)[1..] == Decimal(-n);
    } else {
      DigitsOfDecimal(t, n);
    }
  }

  lemma StripSelf(t: Tables, s: string)
    requires s != "" && !t.space(s[0]) && !t.space(s[|s| - 1])
    ensures Strip(t, s) == s
  {
  }

  /** `str.strip` cuts whitespace from both ends, and nothing else. */
  lemma StripCuts(t: Tables, s: string) returns (i: nat, j: nat)
    ensures i <= j <= |s| && Strip(t, s) == s[i..j]
    ensures forall k :: 0 <= k < i || j <= k < |s| ==> t.space(s[k])
    ensures i < j ==> !t.space(s[i]) && !t.space(s[j - 1])
  {
    i := LeftCut(t, s);
    j := RightCut(t, s[i..]);
    j := i + j;
  }

  lemma {:induction false} LeftCut(t: Tables, s: string) returns (i: nat)
    ensures i <= |s| && StripLeft(t, s) == s[i..] && forall k :: 0 <= k < i ==> t.space(s[k])
  {
    i := 0;
    if s != "" && t.space(s[0]) {
      var n := LeftCut(t, s[1..]);
      assert forall k :: 1 <= k < n + 1 ==> s[k] == s[1..][k - 1];
      i := n + 1;
    }
  }

  lemma {:induction false} RightCut(t: Tables, s: string) returns (j: nat)
    ensures j <= |s| && StripRight(t, s) == s[..j] && forall k :: j <= k < |s| ==> t.space(s[k])
  {
    j := |s|;
    if s != "" && t.space(s[|s| - 1]) {
      j := RightCut(t, s[..|s| - 1]);
      assert forall k :: j <= k < |s| - 1 ==> s[k] == s[..|s| - 1][k];
    }
  }

  /** A plus sign changes nothing, and a single underscore between digits is skipped. */
  lemma IntegerOfPlus(t: Tables, n: nat)
    requires Standard(t)
    ensures Integer(t, "+" + Decimal(n)) == Ok(n)
  {
    var s := "+" + Decimal(n);
    assert '0' <= Decimal(n)[|Decimal(n)| - 1] <= '9';
    StripSelf(t, s);
    DigitsOfDecimal(t, n);
    assert s[1..] == Decimal(n);
  }

  lemma UnderscoreIsSkipped(t: Tables, a: char, b: char)
    requires Standard(t) && '0' <= a <= '9' && '0' <= b <= '9'
    ensures Integer(t, [a, '_', b]) == Ok((a as int - '0' as int) * 10 + (b as int - '0' as int))
    ensures Integer(t, [a, '_']).ValueError? && Integer(t, ['_', a]).ValueError?
  {
    StripSelf(t, [a, '_', b]);
    var d := t.digit(a);
    assert [a, '_', b][1..] == ['_', b] && ['_', b][1..] == [b] && [b][1..] == "";
    assert Digits(t, [b], d, false) == Ok(d * 10 + t.digit(b));
    assert Digits(t, ['_', b], d, true) == Digits(t, [b], d, false);
    StripSelf(t, [a, '_']);
    StripSelf(t, ['_', a]);
    assert [a, '_'][1..] == ['_'] && ['_'][1..] == "";
    assert Digits(t, ['_'], d, true) == Digits(t, "", d, false);
  }

  // ---------------------------------------------------------------- what stands in the way

  lemma FindAt(s: string, c: char, k: nat)
    requires k < |s| && s[k] == c && c !in s[..k]
    ensures Find(s, c) == k
  {
  }

  lemma {:induction false} StripLeftKeeps(t: Tables, s: string, c: char)
    requires c in s && !t.space(c)
    ensures c in StripLeft(t, s)
  {
    if t.space(s[0]) {
      assert s == [s[0]] + s[1..];
      StripLeftKeeps(t, s[1..], c);
    }
  }

  lemma {:induction false} StripRightKeeps(t: Tables, s: string, c: char)
    requires c in s && !t.space(c)
    ensures c in StripRight(t, s)
  {
    if t.space(s[|s| - 1]) {
      assert s == s[..|s| - 1] + [s[|s| - 1]];
      StripRightKeeps(t, s[..|s| - 1], c);
    }
  }

  lemma {:induction false} DigitsRejectColon(t: Tables, s: string, value: nat, last: bool)
    requires Standard(t) && ':' in s
    ensures Digits(t, s, value, last).ValueError?
  {
    if s[0] != ':' {
      assert s == [s[0]] + s[1..];
      if t.digit(s[0]) < 10 {
        DigitsRejectColon(t, s[1..], value * 10 + t.digit(s[0]), true);
      } else {
        DigitsRejectColon(t, s[1..], value, false);
      }
    }
  }

  lemma IntegerRejectsColon(t: Tables, text: string)
    requires Standard(t) && ':' in text
    ensures Integer(t, text).ValueError?
  {
    StripLeftKeeps(t, text, ':');
    StripRightKeeps(t, StripLeft(t, text), ':');
    var s := Strip(t, text);
    assert s == [s[0]] + s[1..];
    DigitsRejectColon(t, s, 0, false);
    if s[0] == '-' || s[0] == '+' { DigitsRejectColon(t, s[1..], 0, false); }
  }

  // ---------------------------------------------------------------- the round trip

  lemma BracketedPrinted(t: Tables, a: Address)
    requires Standard(t) && t.ipv6(a.host) && ']' !in a.host && 0 <= a.port
    ensures Bracketed(t, Printed(t, a)) == Ok((a.host, Signed(a.port)))
  {
    SignedIsPlain(t, a.port);
    var rest := ":" + Signed(a.port);
    assert Printed(t, a) == "[" + a.host + "]" + rest;
    BracketedAt(t, a.host, rest);
    assert rest[1..] == Signed(a.port);
  }

  lemma PrintableIsReadBack(t: Tables, a: Address, defaultHost: string, defaultPort: int)
    requires Standard(t) && Printable(t, a)
    ensures Parse(t, Printed(t, a), defaultHost, defaultPort) == Ok(a)
  {
    IntegerOfSigned(t, a.port);
    if t.ipv6(a.host) {
      BracketedPrinted(t, a);
      SignedIsPlain(t, a.port);
    } else {
      var input := Printed(t, a);
      assert input[..|a.host|] == a.host;
      FindAt(input, ':', |a.host|);
      assert input[|a.host| + 1..] == Signed(a.port);
    }
  }

  lemma BracketsHideHost(t: Tables, a: Address, defaultHost: string, defaultPort: int)
    requires Standard(t) && !t.ipv6(a.host) && a.host != "" && a.host[0] == '['
    ensures Parse(t, Printed(t, a), defaultHost, defaultPort) != Ok(a)
  {
  }

  lemma ClosingBracketEndsHost(t: Tables, a: Address)
    requires Standard(t) && t.ipv6(a.host) && ']' in a.host
    ensures Bracketed(t, Printed(t, a)).ValueError?
  {
    SignedIsPlain(t, a.port);
    var k := Find(a.host, ']');
    var host, all := a.host[..k], a.host[k + 1..] + "]:" + Signed(a.port);
    assert a.host == host + "]" + a.host[k + 1..];
    assert Printed(t, a) == "[" + host + "]" + all;
    NotAPort(t, a.host[k + 1..], Signed(a.port));
    if host != "" {
      BracketedAt(t, host, all);
    } else {
      FindAt(Printed(t, a)[1..], ']', 0);
    }
  }

  lemma NotAPort(t: Tables, before: string, after: string)
    requires Standard(t) && after != "" && after[|after| - 1] != '\n'
    ensures var rest := before + "]:" + after;
            rest != "" && Chomped(rest) == rest && !(rest[0] == ':' && AllDigits(t, rest[1..]))
  {
    var rest := before + "]:" + after;
    assert rest[|before|] == ']';
    if before != "" { assert rest[1..][|before| - 1] == ']'; }
  }

  lemma ColonEndsHost(t: Tables, a: Address, defaultHost: string, defaultPort: int)
    requires Standard(t) && !t.ipv6(a.host) && ':' in a.host && a.host[0] != '['
    ensures Parse(t, Printed(t, a), defaultHost, defaultPort).ValueError?
  {
    var input := Printed(t, a);
    var k := Find(a.host, ':');
    assert input[..k] == a.host[..k];
    FindAt(input, ':', k);
    assert input[k + 1..][|a.host| - k - 1] == ':';
    IntegerRejectsColon(t, input[k + 1..]);
    BadPortIsRefused(t, input, defaultHost, defaultPort);
  }

  lemma BadPortIsRefused(t: Tables, input: string, defaultHost: string, defaultPort: int)
    requires input != "" && input[0] != '[' && ':' in input && Integer(t, input[Find(input, ':') + 1..]).ValueError?
    ensures Parse(t, input, defaultHost, defaultPort).ValueError?
  {
  }

  lemma ParsedPortInRange(t: Tables, input: string, defaultHost: string, defaultPort: int)
    ensures Parse(t, input, defaultHost, defaultPort).Ok? ==>
             0 <= Parse(t, input, defaultHost, defaultPort).value.port < 65536
  {
  }

  lemma UntrimmedIsLost(t: Tables, a: Address)
    requires Standard(t) && !t.ipv6(a.host) && ':' !in a.host && (a.host == "" || a.host[0] != '[')
    requires a.host == "" || Strip(t, a.host) != a.host
    ensures Parse(t, Printed(t, a), a.host + "x", 0) != Ok(a)
  {
  }

  /** Printing and parsing is the identity, whatever the defaults, exactly for the printable addresses. */
  lemma RoundTripIffPrintable(t: Tables, a: Address)
    requires Standard(t)
    ensures (forall defaultHost, defaultPort :: Parse(t, Printed(t, a), defaultHost, defaultPort) == Ok(a)) <==>
             Printable(t, a)
  {
    if Printable(t, a) {
      forall defaultHost, defaultPort ensures Parse(t, Printed(t, a), defaultHost, defaultPort) == Ok(a) {
        PrintableIsReadBack(t, a, defaultHost, defaultPort);
      }
    } else {
      assert Parse(t, Printed(t, a), a.host + "x", 0) != Ok(a) by { UnprintableIsLost(t, a); }
    }
  }

  lemma UnprintableIsLost(t: Tables, a: Address)
    requires Standard(t) && !Printable(t, a)
    ensures Parse(t, Printed(t, a), a.host + "x", 0) != Ok(a)
  {
    ParsedPortInRange(t, Printed(t, a), a.host + "x", 0);
    if 0 <= a.port < 65536 {
      if t.ipv6(a.host) {
        ClosingBracketEndsHost(t, a);
      } else if a.host != "" && a.host[0] == '[' {
        BracketsHideHost(t, a, a.host + "x", 0);
      } else if ':' in a.host {
        ColonEndsHost(t, a, a.host + "x", 0);
      } else {
        UntrimmedIsLost(t, a);
      }
    }
  }

  /** An IPv6 address may end in a zone, and a zone may hold a bracket: such an address is printed but not parsed. */
  lemma ZoneWithBracketIsLost(t: Tables)
    requires Standard(t) && t.ipv6("fe80::1%]")
    ensures Parse(t, Printed(t, Address("fe80::1%]", 4566)), "localhost", 4566).ValueError?
  {
    assert "fe80::1%]"[8] == ']';
    ClosingBracketEndsHost(t, Address("fe80::1%]", 4566));
  }

  // ---------------------------------------------------------------- what an input means

  /** The forms of an address: in brackets, perhaps with a port and a final newline; with a colon; and without one. */
  datatype Form =
    | Bracket(host: string, port: Option<string>, newline: bool)
    | Colon(host: string, number: string)
    | Bare(host: string)

  function Text(f: Form): string {
    match f
    case Bracket(host, port, newline) =>
      "[" + host + "]" + (if port.Some? then ":" + port.value else "") + (if newline then "\n" else "")
    case Colon(host, port) => host + ":" + port
    case Bare(host) => host
  }

  predicate Proper(t: Tables, f: Form) {
    match f
    case Bracket(host, port, _) =>
      host != "" && ']' !in host && (port.Some? ==> port.value != "" && AllDigits(t, port.value))
    case Colon(host, _) => ':' !in host && (host == "" || host[0] != '[')
    case Bare(host) => ':' !in host && (host == "" || host[0] != '[')
  }

  /** The address of a form: a bracketed host must be an IPv6 address and stays as it is, any other is stripped; what is
      missing comes from the defaults; and the port must be a number in range. */
  function Meaning(t: Tables, f: Form, defaultHost: string, defaultPort: int): Result<Address> {
    match f
    case Bracket(host, port, _) =>
      if !t.ipv6(host) then ValueError
      else if port.None? then Ranged(host, defaultPort) else WithPort(t, host, port.value)
    case Colon(host, port) => WithPort(t, OrDefault(Strip(t, host), defaultHost), port)
    case Bare(host) => Ranged(OrDefault(Strip(t, host), defaultHost), defaultPort)
  }

  lemma BracketIsRead(t: Tables, f: Form)
    requires Standard(t) && Proper(t, f) && f.Bracket?
    ensures Bracketed(t, Text(f)) == Ok((f.host, if f.port.Some? then f.port.value else ""))
  {
    var tail := if f.port.Some? then ":" + f.port.value else "";
    var all := tail + if f.newline then "\n" else "";
    assert Text(f) == "[" + f.host + "]" + all;
    BracketedAt(t, f.host, all);
    TailIsRead(t, f.port, f.newline);
  }

  lemma TailIsRead(t: Tables, port: Option<string>, newline: bool)
    requires Standard(t) && (port.Some? ==> port.value != "" && AllDigits(t, port.value))
    ensures var tail := if port.Some? then ":" + port.value else "";
            && Chomped(tail + if newline then "\n" else "") == tail
            && (port.Some? ==> tail[1..] == port.value)
  {
    if port.Some? {
      var last := port.value[|port.value| - 1];
      assert t.digit(last) < 10 && last != '\n';
    }
  }

  lemma FormIsRead(t: Tables, f: Form, defaultHost: string, defaultPort: int)
    requires Standard(t) && Proper(t, f)
    ensures Parse(t, Text(f), defaultHost, defaultPort) == Meaning(t, f, defaultHost, defaultPort)
  {
    match f {
      case Bracket(_, _, _) => BracketIsRead(t, f);
      case Colon(host, port) => ColonIsRead(t, host, port, defaultHost, defaultPort);
      case Bare(_) =>
    }
  }

  lemma ColonIsRead(t: Tables, host: string, port: string, defaultHost: string, defaultPort: int)
    requires ':' !in host && (host == "" || host[0] != '[')
    ensures Parse(t, host + ":" + port, defaultHost, defaultPort) ==
             WithPort(t, OrDefault(Strip(t, host), defaultHost), port)
  {
    var input := host + ":" + port;
    assert input[|host|] == ':' && input[..|host|] == host && input[|host| + 1..] == port;
    FindAt(input, ':', |host|);
  }

  lemma BracketedHasForm(t: Tables, input: string) returns (f: Form)
    requires input != "" && input[0] == '[' && Bracketed(t, input).Ok?
    ensures Proper(t, f) && Text(f) == input
  {
    var i := Find(input[1..], ']') + 1;
    var rest := Chomped(input[i + 1..]);
    f := Bracket(input[1..i], if rest == "" then None else Some(rest[1..]), rest != input[i + 1..]);
    assert input[1..][..i - 1] == input[1..i];
    TextOfBracket(input, i, rest, f);
  }

  lemma TextOfBracket(input: string, i: nat, rest: string, f: Form)
    requires 0 < i < |input| && input[0] == '[' && input[i] == ']'
    requires rest == Chomped(input[i + 1..]) && (rest != "" ==> rest[0] == ':')
    requires f == Bracket(input[1..i], if rest == "" then None else Some(rest[1..]), rest != input[i + 1..])
    ensures Text(f) == input
  {
    assert input == "[" + input[1..i] + "]" + input[i + 1..];
    assert rest != "" ==> rest == ":" + rest[1..];
    ChompedWhole(input[i + 1..]);
  }

  lemma ChompedWhole(s: string)
    ensures s == Chomped(s) + if Chomped(s) != s then "\n" else ""
  {
  }

  lemma ParsedByForm(t: Tables, input: string, defaultHost: string, defaultPort: int)
    requires Standard(t)
    ensures forall f :: Proper(t, f) && Text(f) == input ==>
              Parse(t, input, defaultHost, defaultPort) == Meaning(t, f, defaultHost, defaultPort)
    ensures (forall f :: Proper(t, f) ==> Text(f) != input) ==> Parse(t, input, defaultHost, defaultPort).ValueError?
  {
    forall f | Proper(t, f) && Text(f) == input
      ensures Parse(t, input, defaultHost, defaultPort) == Meaning(t, f, defaultHost, defaultPort)
    {
      FormIsRead(t, f, defaultHost, defaultPort);
    }
    if Parse(t, input, defaultHost, defaultPort).Ok? {
      var f := HasForm(t, input, defaultHost, defaultPort);
      assert Proper(t, f) && Text(f) == input;
    }
  }

  lemma HasForm(t: Tables, input: string, defaultHost: string, defaultPort: int) returns (f: Form)
    requires Parse(t, input, defaultHost, defaultPort).Ok?
    ensures Proper(t, f) && Text(f) == input
  {
    if input != "" && input[0] == '[' {
      f := BracketedHasForm(t, input);
    } else if ':' in input {
      var i := Find(input, ':');
      f := Colon(input[..i], input[i + 1..]);
      assert input == input[..i] + ":" + input[i + 1..];
    } else {
      f := Bare(input);
    }
  }

  /** `HostAndPort.parse`, with the host and the port set to the defaults and overwritten branch by branch. A text of
      one of the three forms is read as that form means, whichever way it is taken apart, and any other raises the
      error. */
  method ParseInput(t: Tables, input: string, defaultHost: string, defaultPort: int) returns (r: Result<Address>)
    ensures Standard(t) ==>
              forall f :: Proper(t, f) && Text(f) == input ==> r == Meaning(t, f, defaultHost, defaultPort)
    ensures Standard(t) && (forall f :: Proper(t, f) ==> Text(f) != input) ==> r.ValueError?
    ensures r == Parse(t, input, defaultHost, defaultPort)
  {
    if Standard(t) { ParsedByForm(t, input, defaultHost, defaultPort); }
    r := ParseBranches(t, input, defaultHost, defaultPort);
  }

  method ParseBranches(t: Tables, input: string, defaultHost: string, defaultPort: int) returns (r: Result<Address>)
    ensures r == Parse(t, input, defaultHost, defaultPort)
  {
    var host, port := defaultHost, defaultPort;
    if input != "" && input[0] == '[' {
      var found := Bracketed(t, input);
      if found.ValueError? { return ValueError; }
      host := found.value.0;
      if !t.ipv6(host) { return ValueError; }
      if found.value.1 != "" {
        var number := Integer(t, found.value.1);
        if number.ValueError? { return ValueError; }
        port := number.value;
      }
    } else if ':' in input {
      var i := Find(input, ':');
      if Strip(t, input[..i]) != "" { host := Strip(t, input[..i]); }
      var number := Integer(t, input[i + 1..]);
      if number.ValueError? { return ValueError; }
      port := number.value;
    } else if Strip(t, input) != "" {
      host := Strip(t, input);
    }
    if port < 0 || port >= 65536 { return ValueError; }
    r := Ok(Address(host, port));
  }
}
