/** Host endpoints: a name or address with an optional port, the exact texts that denote one, and their canonical text. */
module HostEndpoint {
  import opened Prelude
  import opened Splitting

  datatype Endpoint = Endpoint(address: string, port: int)

  /** What is taken from the environment: bytes per character, character classes, and the IPv6 literals. */
  datatype Alphabet = Alphabet(width: char -> nat, control: char -> bool, space: char -> bool, ip6: string -> bool)

  /** Visible ASCII characters take one byte and are neither control characters nor white space. */
  ghost predicate Lawful(e: Alphabet) {
    forall c | ' ' < c <= '~' :: e.width(c) == 1 && !e.control(c) && !e.space(c)
  }

  const MAX_BYTES: nat := 253
  const MAX_LABEL: nat := 63
  const MAX_PORT: int := 65535
  const FORBIDDEN: set<char> := {'\0', '/', '\\', '@', ' ', '\t', '\r', '\n', ';', '&', '|', '`', '$', '<', '>', '(', ')',
                                 '{', '}'}

  // ---------------------------------------------------------------- ports

  predicate IsDigit(c: char) {
    '0' <= c <= '9'
  }

  function Digit(d: nat): (c: char)
    requires d < 10
    ensures IsDigit(c)
  {
    "0123456789"[d]
  }

  function ValueOf(c: char): (d: int)
    ensures IsDigit(c) ==> 0 <= d < 10
  {
    c as int - '0' as int
  }

  /** The canonical decimal of a number: no leading zeros. */
  function Decimal(n: nat): (s: string)
    ensures s != "" && forall c | c in s :: IsDigit(c)
  {
    if n < 10 then [Digit(n)] else Decimal(n / 10) + [Digit(n % 10)]
  }

  function Number(s: string): int {
    if s == "" then 0 else 10 * Number(s[..|s| - 1]) + ValueOf(s[|s| - 1])
  }

  function ParsePort(text: string): Option<int> {
    if text == "" || |text| > 5 || exists c :: c in text && !IsDigit(c) then None
    else
      var n := Number(text);
      if n < 1 || n > MAX_PORT || Decimal(n) != text then None else Some(n)
  }

  lemma {:induction false} NumberOfDecimal(n: nat)
    ensures Number(Decimal(n)) == n
  {
    if n >= 10 {
      NumberOfDecimal(n / 10);
      assert Decimal(n)[..|Decimal(n)| - 1] == Decimal(n / 10);
    } else {
      assert Decimal(n)[..0] == "";
    }
  }

  lemma {:induction false} DecimalLength(n: nat)
    ensures n < 10 ==> |Decimal(n)| == 1
    ensures n < 100 ==> |Decimal(n)| <= 2
    ensures n < 1000 ==> |Decimal(n)| <= 3
    ensures n < 10000 ==> |Decimal(n)| <= 4
    ensures n < 100000 ==> |Decimal(n)| <= 5
  {
    if n >= 10 {
      DecimalLength(n / 10);
    }
  }

  /** Ports are accepted exactly for the canonical decimals of 1 to 65535. */
  lemma PortsAreCanonical(text: string, port: int)
    ensures ParsePort(text) == Some(port) <==> 1 <= port <= MAX_PORT && text == Decimal(port)
  {
    if 1 <= port <= MAX_PORT && text == Decimal(port) {
      NumberOfDecimal(port);
      DecimalLength(port);
    }
  }

  // ---------------------------------------------------------------- zones

  /** The zone delimiter of an IPv6 literal, accepted plain or escaped as %25; a second one is refused. */
  function DecodeZone(text: string): Option<string> {
    var zone := IndexOf(text, '%');
    if zone == |text| then Some(text)
    else if zone + 3 <= |text| && text[zone..zone + 3] == "%25" then
      var decoded := text[..zone] + "%" + text[zone + 3..];
      if '%' in decoded[zone + 1..] then None else Some(decoded)
    else if '%' in text[zone + 1..] then None
    else Some(text)
  }

  function EscapeZone(address: string): string {
    var zone := IndexOf(address, '%');
    if zone == |address| then address else address[..zone] + "%25" + address[zone + 1..]
  }

  predicate OneDelimiter(address: string) {
    var zone := IndexOf(address, '%');
    zone < |address| ==> '%' !in address[zone + 1..]
  }

  /** A plain delimiter stands where it was put. */
  lemma PlainZone(head: string, tail: string)
    requires '%' !in head
    ensures var text := head + "%" + tail;
            IndexOf(text, '%') == |head| && text[..|head|] == head && text[|head| + 1..] == tail
  {
    FirstSeparator(head, tail, '%');
    hide IndexOf;
    assert head + "%" + tail == head + ['%'] + tail;
  }

  /** So does an escaped one. */
  lemma EscapedZone(head: string, tail: string)
    requires '%' !in head
    ensures var text := head + "%25" + tail;
            && IndexOf(text, '%') == |head| && text[..|head|] == head
            && text[|head|..|head| + 3] == "%25" && text[|head| + 3..] == tail
  {
    FirstSeparator(head, "25" + tail, '%');
    hide IndexOf;
    assert head + "%25" + tail == head + ['%'] + ("25" + tail);
  }

  lemma DecodedHasOneDelimiter(text: string)
    requires DecodeZone(text).Some?
    ensures OneDelimiter(DecodeZone(text).value)
  {
    hide IndexOf;
    var zone := IndexOf(text, '%');
    if zone < |text| && zone + 3 <= |text| && text[zone..zone + 3] == "%25" {
      PlainZone(text[..zone], text[zone + 3..]);
    }
  }

  lemma DecodedCharacters(text: string)
    requires DecodeZone(text).Some?
    ensures forall c | c in DecodeZone(text).value :: c in text
    ensures forall c | c in text && c != '%' && c != '2' && c != '5' :: c in DecodeZone(text).value
  {
    hide IndexOf;
    var zone := IndexOf(text, '%');
    if zone < |text| && zone + 3 <= |text| && text[zone..zone + 3] == "%25" {
      assert text == text[..zone] + "%25" + text[zone + 3..];
    }
  }

  lemma EscapedDecodes(address: string)
    requires OneDelimiter(address)
    ensures DecodeZone(EscapeZone(address)) == Some(address)
  {
    hide IndexOf;
    var zone := IndexOf(address, '%');
    if zone < |address| {
      var head, tail := address[..zone], address[zone + 1..];
      assert address == head + "%" + tail;
      PlainZone(head, tail);
      EscapedZone(head, tail);
    }
  }

  // ---------------------------------------------------------------- names

  predicate NameCharacter(c: char) {
    'a' <= c <= 'z' || 'A' <= c <= 'Z' || IsDigit(c) || c == '-' || c == '_'
  }

  predicate ValidLabel(part: string) {
    && part != "" && |part| <= MAX_LABEL && part[0] != '-' && part[|part| - 1] != '-'
    && forall c | c in part :: NameCharacter(c)
  }

  predicate ValidName(name: string) {
    forall part | part in Split(name, '.') :: ValidLabel(part)
  }

  lemma NameCharacters(name: string)
    requires ValidName(name)
    ensures name != "" && name[0] != '-' && forall c | c in name :: NameCharacter(c) || c == '.'
  {
    var parts := Split(name, '.');
    JoinOfSplit(name, '.');
    forall c | c in name && c != '.'
      ensures NameCharacter(c)
    {
      JoinCharacters(parts, '.', c);
      var p :| p in parts && c in p;
    }
    assert ValidLabel(parts[0]);
    assert name[0] == parts[0][0];
  }

  /** The loop over the labels and their characters. */
  method CheckName(name: string) returns (ok: bool)
    ensures ok <==> ValidName(name)
  {
    var labels := Split(name, '.');
    for i := 0 to |labels|
      invariant forall k | 0 <= k < i :: ValidLabel(labels[k])
    {
      var part := labels[i];
      if part == "" || |part| > MAX_LABEL || part[0] == '-' || part[|part| - 1] == '-' {
        assert !ValidLabel(part) && part in labels;
        return false;
      }
      for j := 0 to |part|
        invariant forall k | 0 <= k < j :: NameCharacter(part[k])
      {
        if !NameCharacter(part[j]) {
          assert !ValidLabel(part) && part in labels;
          return false;
        }
      }
    }
    ok := true;
  }

  // ---------------------------------------------------------------- texts

  function Width(s: string, e: Alphabet): nat {
    if s == "" then 0 else e.width(s[0]) + Width(s[1..], e)
  }

  /** Printable, trimmed, short, and free of everything that belongs to a URL, an option, a path or a command. */
  predicate AcceptableText(host: string, e: Alphabet) {
    && host != "" && (forall c | c in host :: !e.control(c) && c !in FORBIDDEN)
    && !e.space(host[0]) && !e.space(host[|host| - 1]) && host[0] != '-'
    && Width(host, e) <= MAX_BYTES
  }

  function PortSuffix(port: int): string
    requires 0 <= port
  {
    if port == 0 then "" else ":" + Decimal(port)
  }

  predicate IsIp6(text: string, address: string, e: Alphabet) {
    ':' in text && DecodeZone(text) == Some(address) && e.ip6(address)
  }

  predicate Bracketed(host: string, text: string, ep: Endpoint, e: Alphabet) {
    0 <= ep.port && ']' !in text && IsIp6(text, ep.address, e) && host == "[" + text + "]" + PortSuffix(ep.port)
  }

  /** The endpoint a text stands for: a bracketed IPv6 literal, a bare one, or a name, with a port where one can stand. */
  ghost predicate Denotes(host: string, ep: Endpoint, e: Alphabet) {
    && 0 <= ep.port <= MAX_PORT
    && ((exists text :: Bracketed(host, text, ep, e))
        || (ep.port == 0 && '[' !in host && ']' !in host && Count(host, ':') != 1 && IsIp6(host, ep.address, e))
        || (ValidName(ep.address) && host == ep.address + PortSuffix(ep.port)))
  }

  function Count(s: string, c: char): nat {
    if s == "" then 0 else (if s[0] == c then 1 else 0) + Count(s[1..], c)
  }

  /** The canonical text of an endpoint. */
  function Render(ep: Endpoint): string
    requires 0 <= ep.port
  {
    (if ':' in ep.address then "[" + EscapeZone(ep.address) + "]" else ep.address) + PortSuffix(ep.port)
  }

  lemma {:induction false} CountOfJoined(a: string, b: string, c: char)
    ensures Count(a + b, c) == Count(a, c) + Count(b, c)
  {
    if a == "" {
      assert a + b == b;
    } else {
      assert (a + b)[1..] == a[1..] + b;
      CountOfJoined(a[1..], b, c);
    }
  }

  lemma {:induction false} CountIsZero(s: string, c: char)
    ensures Count(s, c) == 0 <==> c !in s
  {
    if s != "" {
      CountIsZero(s[1..], c);
      assert s == [s[0]] + s[1..];
    }
  }

  lemma CountAround(left: string, c: char, right: string)
    ensures Count(left + [c] + right, c) == Count(left, c) + 1 + Count(right, c)
  {
    CountOfJoined(left, [c], c);
    CountOfJoined(left + [c], right, c);
    assert [c][1..] == "";
  }

  /** A text with a single colon falls apart at it, and only there. */
  lemma SingleColon(host: string)
    requires Count(host, ':') == 1
    ensures var i := IndexOf(host, ':'); i < |host| && ':' !in host[..i] && ':' !in host[i + 1..]
  {
    hide IndexOf, Count;
    CountIsZero(host, ':');
    var i := IndexOf(host, ':');
    CountAround(host[..i], ':', host[i + 1..]);
    assert host == host[..i] + [':'] + host[i + 1..];
    CountIsZero(host[..i], ':');
    CountIsZero(host[i + 1..], ':');
  }

  /** What may follow a closing bracket: nothing, or a colon and a port. */
  predicate PortAfter(suffix: string, port: int) {
    if suffix == "" then port == 0 else suffix[0] == ':' && ParsePort(suffix[1..]) == Some(port)
  }

  lemma SuffixMeans(suffix: string, port: int)
    requires 0 <= port <= MAX_PORT
    ensures suffix == PortSuffix(port) <==> PortAfter(suffix, port)
  {
    if port > 0 {
      PortsAreCanonical(Decimal(port), port);
      if suffix != "" && suffix[0] == ':' {
        PortsAreCanonical(suffix[1..], port);
        assert suffix == ":" + suffix[1..];
      }
      assert (":" + Decimal(port))[1..] == Decimal(port);
    } else if suffix != "" {
      PortsAreCanonical(suffix[1..], port);
    }
  }

  lemma SuffixCharacters(port: int)
    requires 0 <= port
    ensures forall c | c in PortSuffix(port) :: c == ':' || IsDigit(c)
  {
  }

  lemma BracketedShape(host: string, text: string, ep: Endpoint, e: Alphabet)
    requires Bracketed(host, text, ep, e)
    ensures var close := IndexOf(host, ']');
            && host != "" && host[0] == '[' && 0 < close < |host| && text == host[1..close]
            && host[close + 1..] == PortSuffix(ep.port)
  {
    hide PortSuffix, IsIp6;
    BracketStrings(text, PortSuffix(ep.port));
  }

  lemma BracketStrings(text: string, suffix: string)
    requires ']' !in text
    ensures var host := "[" + text + "]" + suffix; var close := |text| + 1;
            IndexOf(host, ']') == close && host[1..close] == text && host[close + 1..] == suffix
  {
    var head := "[" + text;
    FirstSeparator(head, suffix, ']');
    var host := head + "]" + suffix;
    assert host == head + [']'] + suffix;
    assert host[..|head|] == head;
    assert head[1..] == text;
    assert host[1..|head|] == head[1..];
  }

  /** A text in name form holds neither brackets nor a colon, but for the one before the port. */
  lemma NameFormShape(host: string, ep: Endpoint)
    requires 0 <= ep.port && ValidName(ep.address) && host == ep.address + PortSuffix(ep.port)
    ensures host != "" && '[' !in host && ']' !in host && ':' !in ep.address
    ensures ep.port == 0 ==> ':' !in host
    ensures ep.port > 0 ==> Count(host, ':') == 1 && IndexOf(host, ':') == |ep.address|
    ensures ep.port > 0 ==> host[..|ep.address|] == ep.address && host[|ep.address|..] == PortSuffix(ep.port)
  {
    NameCharacters(ep.address);
    SuffixCharacters(ep.port);
    hide ValidName, NameCharacter;
    assert ':' !in ep.address && '[' !in ep.address && ']' !in ep.address by {
      NameHasNoColon(ep.address);
    }
    if ep.port > 0 {
      var digits := Decimal(ep.port);
      assert host == ep.address + [':'] + digits;
      FirstSeparator(ep.address, digits, ':');
      CountIsZero(ep.address, ':');
      assert ':' !in digits;
      CountIsZero(digits, ':');
      CountOfJoined(ep.address, [':'], ':');
      CountOfJoined(ep.address + [':'], digits, ':');
      assert [':'][1..] == "";
    }
  }

  lemma NameHasNoColon(name: string)
    requires ValidName(name)
    ensures ':' !in name && '[' !in name && ']' !in name
  {
    NameCharacters(name);
  }

  // ---------------------------------------------------------------- the parser

  method ParseHostEndpoint(host: string, e: Alphabet) returns (r: Option<Endpoint>)
    ensures forall ep :: AcceptableText(host, e) && Denotes(host, ep, e) <==> r == Some(ep)
  {
    if !AcceptableText(host, e) {
      return None;
    }
    hide AcceptableText;
    if host[0] == '[' {
      r := ParseBracketed(host, e);
    } else if '[' in host || ']' in host {
      NothingDenoted(host, e);
      r := None;
    } else if Count(host, ':') == 1 {
      r := ParseNameAndPort(host, e);
    } else {
      r := ParseBare(host, e);
    }
  }

  lemma NothingDenoted(host: string, e: Alphabet)
    requires host != "" && host[0] != '[' && ('[' in host || ']' in host)
    ensures forall ep :: !Denotes(host, ep, e)
  {
    forall ep | Denotes(host, ep, e)
      ensures false
    {
      if text :| Bracketed(host, text, ep, e) {
        BracketedShape(host, text, ep, e);
      } else {
        NameFormShape(host, ep);
      }
    }
  }

  method ParseBracketed(host: string, e: Alphabet) returns (r: Option<Endpoint>)
    requires host != "" && host[0] == '['
    ensures forall ep :: Denotes(host, ep, e) <==> r == Some(ep)
  {
    var close := IndexOf(host, ']');
    DenotedInBrackets(host, e);
    if close == |host| {
      return None;
    }
    var text, suffix := host[1..close], host[close + 1..];
    var port := 0;
    if suffix != "" {
      if suffix[0] != ':' {
        return None;
      }
      var parsed := ParsePort(suffix[1..]);
      if parsed.None? {
        return None;
      }
      port := parsed.value;
    }
    if ':' !in text {
      return None;
    }
    var address := DecodeZone(text);
    if address.None? || !e.ip6(address.value) {
      return None;
    }
    r := Some(Endpoint(address.value, port));
  }

  /** A bracketed literal that ends at `close`, and what follows it. */
  predicate BracketedAt(host: string, close: int, ep: Endpoint, e: Alphabet) {
    && 0 < close < |host| && 0 <= ep.port <= MAX_PORT
    && IsIp6(host[1..close], ep.address, e) && PortAfter(host[close + 1..], ep.port)
  }

  lemma DenotedInBrackets(host: string, e: Alphabet)
    requires host != "" && host[0] == '['
    ensures forall ep :: Denotes(host, ep, e) <==> BracketedAt(host, IndexOf(host, ']'), ep, e)
  {
    hide Denotes, BracketedAt, IndexOf;
    forall ep: Endpoint
      ensures Denotes(host, ep, e) <==> BracketedAt(host, IndexOf(host, ']'), ep, e)
    {
      DenotesInBrackets(host, ep, e);
    }
  }

  lemma DenotesInBrackets(host: string, ep: Endpoint, e: Alphabet)
    requires host != "" && host[0] == '['
    ensures Denotes(host, ep, e) <==> BracketedAt(host, IndexOf(host, ']'), ep, e)
  {
    if 0 <= ep.port <= MAX_PORT {
      hide Denotes, IsIp6, PortSuffix, PortAfter, IndexOf;
      var close := IndexOf(host, ']');
      if close < |host| {
        SuffixMeans(host[close + 1..], ep.port);
      }
      DenotesBracketed(host, ep, e);
    }
  }

  lemma DenotesBracketed(host: string, ep: Endpoint, e: Alphabet)
    requires host != "" && host[0] == '[' && 0 <= ep.port <= MAX_PORT
    ensures var close := IndexOf(host, ']');
            Denotes(host, ep, e) <==>
              close < |host| && IsIp6(host[1..close], ep.address, e) && host[close + 1..] == PortSuffix(ep.port)
  {
    if Denotes(host, ep, e) {
      DenotedIsBracketed(host, ep, e);
      hide Denotes, IsIp6, PortSuffix, IndexOf;
      var text :| Bracketed(host, text, ep, e);
      BracketedShape(host, text, ep, e);
    } else {
      hide Denotes, IsIp6, PortSuffix, IndexOf;
      var close := IndexOf(host, ']');
      if close < |host| && IsIp6(host[1..close], ep.address, e) && host[close + 1..] == PortSuffix(ep.port) {
        BracketedIsDenoted(host, close, ep, e);
      }
    }
  }

  lemma BracketedIsDenoted(host: string, close: nat, ep: Endpoint, e: Alphabet)
    requires 0 < close < |host| && host[0] == '[' && host[close] == ']' && ']' !in host[..close] && 0 <= ep.port <= MAX_PORT
    requires IsIp6(host[1..close], ep.address, e) && host[close + 1..] == PortSuffix(ep.port)
    ensures Denotes(host, ep, e)
  {
    hide IsIp6, PortSuffix, ValidName, IndexOf, Count;
    var text := host[1..close];
    assert host[..close] == "[" + text;
    assert host == host[..close] + "]" + host[close + 1..];
    assert Bracketed(host, text, ep, e);
  }

  /** Behind an opening bracket nothing but a bracketed literal is left. */
  lemma DenotedIsBracketed(host: string, ep: Endpoint, e: Alphabet)
    requires host != "" && host[0] == '[' && Denotes(host, ep, e)
    ensures exists text :: Bracketed(host, text, ep, e)
  {
    hide Bracketed, IsIp6, PortSuffix, ValidName, IndexOf, Count;
    assert host[0] in host;
    if ValidName(ep.address) && host == ep.address + PortSuffix(ep.port) {
      NameFormShape(host, ep);
    }
  }

  method ParseNameAndPort(host: string, e: Alphabet) returns (r: Option<Endpoint>)
    requires host != "" && '[' !in host && ']' !in host && Count(host, ':') == 1
    ensures forall ep :: Denotes(host, ep, e) <==> r == Some(ep)
  {
    SingleColon(host);
    DenotedWithPort(host, e);
    var separator := IndexOf(host, ':');
    var port := ParsePort(host[separator + 1..]);
    if port.None? {
      return None;
    }
    var valid := CheckName(host[..separator]);
    r := if valid then Some(Endpoint(host[..separator], port.value)) else None;
  }

  lemma DenotedWithPort(host: string, e: Alphabet)
    requires host != "" && '[' !in host && ']' !in host && Count(host, ':') == 1
    ensures var i := IndexOf(host, ':');
            i < |host| && forall ep :: Denotes(host, ep, e) <==>
              ep.address == host[..i] && ValidName(ep.address) && ParsePort(host[i + 1..]) == Some(ep.port)
  {
    SingleColon(host);
    hide Denotes, ValidName, IndexOf, ParsePort, Decimal;
    var i := IndexOf(host, ':');
    forall ep: Endpoint
      ensures Denotes(host, ep, e) <==>
                ep.address == host[..i] && ValidName(ep.address) && ParsePort(host[i + 1..]) == Some(ep.port)
    {
      PortsAreCanonical(host[i + 1..], ep.port);
      DenotesNameAndPort(host, ep, e);
    }
  }

  predicate NameAndPortAt(host: string, i: int, ep: Endpoint) {
    && 0 <= i < |host| && host[i] == ':' && ep.address == host[..i] && ValidName(ep.address)
    && 1 <= ep.port <= MAX_PORT && host[i + 1..] == Decimal(ep.port)
  }

  lemma DenotesNameAndPort(host: string, ep: Endpoint, e: Alphabet)
    requires host != "" && '[' !in host && ']' !in host && Count(host, ':') == 1
    ensures Denotes(host, ep, e) <==> NameAndPortAt(host, IndexOf(host, ':'), ep)
  {
    hide Denotes, NameAndPortAt, Count, IndexOf;
    if Denotes(host, ep, e) {
      DenotedIsNameAndPort(host, ep, e);
    }
    if NameAndPortAt(host, IndexOf(host, ':'), ep) {
      NameAndPortIsDenoted(host, IndexOf(host, ':'), ep, e);
    }
  }

  lemma NameAndPortIsDenoted(host: string, i: int, ep: Endpoint, e: Alphabet)
    requires NameAndPortAt(host, i, ep)
    ensures Denotes(host, ep, e)
  {
    hide ValidName, Decimal, IsIp6, Bracketed, IndexOf, Count;
    assert host == host[..i] + (":" + host[i + 1..]);
  }

  lemma DenotedIsNameAndPort(host: string, ep: Endpoint, e: Alphabet)
    requires host != "" && '[' !in host && Count(host, ':') == 1 && Denotes(host, ep, e)
    ensures NameAndPortAt(host, IndexOf(host, ':'), ep)
  {
    DenotedIsNameForm(host, ep, e);
    hide Denotes, ValidName, Count, IndexOf, Decimal, PortSuffix;
    NameFormShape(host, ep);
    SingleColon(host);
    AfterColon(host, IndexOf(host, ':'), ep.port);
  }

  lemma AfterColon(host: string, i: nat, port: int)
    requires i <= |host| && 0 <= port && Count(host, ':') == 1
    requires port == 0 ==> ':' !in host
    requires port > 0 ==> host[i..] == PortSuffix(port)
    ensures port > 0 && i < |host| && host[i + 1..] == Decimal(port)
  {
    hide Count, Decimal;
    CountIsZero(host, ':');
    assert host[i..][1..] == (":" + Decimal(port))[1..] == Decimal(port);
    assert host[i..][1..] == host[i + 1..];
  }

  /** Without brackets and with a single colon, only the name form is left. */
  lemma DenotedIsNameForm(host: string, ep: Endpoint, e: Alphabet)
    requires host != "" && '[' !in host && Count(host, ':') == 1 && Denotes(host, ep, e)
    ensures 0 <= ep.port <= MAX_PORT && ValidName(ep.address) && host == ep.address + PortSuffix(ep.port)
  {
    hide ValidName, IsIp6, IndexOf, Count, PortSuffix;
    assert host[0] in host;
    if text :| Bracketed(host, text, ep, e) {
      BracketedShape(host, text, ep, e);
    }
  }

  method ParseBare(host: string, e: Alphabet) returns (r: Option<Endpoint>)
    requires host != "" && '[' !in host && ']' !in host && Count(host, ':') != 1
    ensures forall ep :: Denotes(host, ep, e) <==> r == Some(ep)
  {
    DenotedBare(host, e);
    if ':' in host {
      var address := DecodeZone(host);
      if address.None? || !e.ip6(address.value) {
        return None;
      }
      return Some(Endpoint(address.value, 0));
    }
    var valid := CheckName(host);
    r := if valid then Some(Endpoint(host, 0)) else None;
  }

  lemma DenotedBare(host: string, e: Alphabet)
    requires host != "" && '[' !in host && ']' !in host && Count(host, ':') != 1
    ensures forall ep :: Denotes(host, ep, e) <==>
              ep.port == 0 && if ':' in host then IsIp6(host, ep.address, e) else ep.address == host && ValidName(host)
  {
    assert host[0] in host;
    forall ep: Endpoint
      ensures Denotes(host, ep, e) <==>
              ep.port == 0 && if ':' in host then IsIp6(host, ep.address, e) else ep.address == host && ValidName(host)
    {
      hide ValidName;
      if Denotes(host, ep, e) {
        if text :| Bracketed(host, text, ep, e) {
          BracketedShape(host, text, ep, e);
        } else if ValidName(ep.address) && host == ep.address + PortSuffix(ep.port) {
          NameFormShape(host, ep);
          assert ep.address + "" == ep.address;
        }
      }
      assert host + "" == host;
    }
  }

  // ---------------------------------------------------------------- the round trip

  lemma RenderCharacters(ep: Endpoint)
    requires 0 <= ep.port
    ensures forall c | c in Render(ep) :: c in ep.address || IsDigit(c) || c in {'[', ']', '%', ':'}
  {
    SuffixCharacters(ep.port);
    EscapeCharacters(ep.address);
    hide PortSuffix, EscapeZone;
  }

  /**
   * For every accepted text, the canonical text of the endpoint it denotes is accepted too, as long as it fits, and
   * denotes the same endpoint.
   */
  lemma EndpointsRoundTrip(host: string, ep: Endpoint, e: Alphabet)
    requires Lawful(e) && AcceptableText(host, e) && Denotes(host, ep, e) && Width(Render(ep), e) <= MAX_BYTES
    ensures AcceptableText(Render(ep), e) && Denotes(Render(ep), ep, e)
  {
    hide IsIp6, AcceptableText, ValidName, EscapeZone, DecodeZone, PortSuffix;
    if ValidName(ep.address) && host == ep.address + PortSuffix(ep.port) {
      NameHasNoColon(ep.address);
    } else {
      AddressOf(host, ep, e);
      Ip6RendersBack(ep, e);
      RenderedIsAcceptable(host, ep, e);
    }
  }

  /** An IPv6 address that is denoted is part of the text, has its colon, no closing bracket, and one delimiter at most. */
  lemma AddressOf(host: string, ep: Endpoint, e: Alphabet)
    requires Denotes(host, ep, e) && !(ValidName(ep.address) && host == ep.address + PortSuffix(ep.port))
    ensures ':' in ep.address && ']' !in ep.address && OneDelimiter(ep.address) && e.ip6(ep.address)
    ensures forall c | c in ep.address :: c in host
  {
    hide PortSuffix, ValidName, DecodeZone, OneDelimiter;
    if text :| Bracketed(host, text, ep, e) {
      BracketedShape(host, text, ep, e);
      DecodedHasOneDelimiter(text);
      DecodedCharacters(text);
    } else {
      DecodedHasOneDelimiter(host);
      DecodedCharacters(host);
    }
  }

  lemma EscapeCharacters(address: string)
    ensures forall c | c in EscapeZone(address) :: c in address || c in {'%', '2', '5'}
    ensures ':' in address ==> ':' in EscapeZone(address)
  {
    var zone := IndexOf(address, '%');
    if zone < |address| {
      assert address == address[..zone] + ['%'] + address[zone + 1..];
    }
  }

  lemma Ip6RendersBack(ep: Endpoint, e: Alphabet)
    requires 0 <= ep.port <= MAX_PORT && ':' in ep.address && ']' !in ep.address && OneDelimiter(ep.address)
    requires e.ip6(ep.address)
    ensures Denotes(Render(ep), ep, e)
  {
    EscapedDecodes(ep.address);
    EscapeCharacters(ep.address);
    hide EscapeZone, DecodeZone, PortSuffix, OneDelimiter;
    assert Bracketed(Render(ep), EscapeZone(ep.address), ep, e);
  }

  lemma RenderedIsAcceptable(host: string, ep: Endpoint, e: Alphabet)
    requires Lawful(e) && AcceptableText(host, e) && 0 <= ep.port && ':' in ep.address
    requires (forall c | c in ep.address :: c in host) && Width(Render(ep), e) <= MAX_BYTES
    ensures AcceptableText(Render(ep), e)
  {
    var text := Render(ep);
    RenderCharacters(ep);
    RenderedEnds(ep);
    hide Render, Width, Decimal, EscapeZone;
    forall c | c in text
      ensures !e.control(c) && c !in FORBIDDEN
    {
      if c !in ep.address {
        OwnCharacters(c, e);
      }
    }
  }

  /** The characters that rendering adds are harmless. */
  lemma OwnCharacters(c: char, e: Alphabet)
    requires Lawful(e) && (IsDigit(c) || c in {'[', ']', '%', ':'})
    ensures !e.control(c) && c !in FORBIDDEN
  {
  }

  lemma RenderedEnds(ep: Endpoint)
    requires 0 <= ep.port && ':' in ep.address
    ensures var text := Render(ep); text != "" && text[0] == '[' && (text[|text| - 1] == ']' || IsDigit(text[|text| - 1]))
  {
    hide EscapeZone;
    if ep.port > 0 {
      var digits := Decimal(ep.port);
      assert digits[|digits| - 1] in digits;
    }
  }
}
