/** Destinations as rule files spell them: a name or an address, and perhaps a
    port, with URI-style brackets (RFC 3986, section 3.2.2) around an IPv6 literal
    that has one. Source: src/policy.rs, lines 1206-1256. */
module Targets {
  import opened Options
  import opened Text

  /** Addresses by value; how they are spelled is the syntax's business. */
  datatype IpAddr = V4(bits: nat) | V6(bits: nat)

  predicate IsAddrChar(c: char) {
    IsDigit(c) || 'a' <= c <= 'f' || 'A' <= c <= 'F' || c == ':' || c == '.'
  }

  /** IpAddr's FromStr and Display. */
  datatype AddrSyntax = AddrSyntax(parse: string -> Option<IpAddr>, show: IpAddr -> string)

  /** What the proofs use of them: parsing inverts printing, an address is spelled
      in its own characters, and only IPv6 spellings have colons, two at least. */
  ghost predicate Lawful(net: AddrSyntax) {
    && (forall a :: net.parse(net.show(a)) == Some(a))
    && (forall s :: net.parse(s).Some? ==>
          && s != ""
          && (forall c :: c in s ==> IsAddrChar(c))
          && (net.parse(s).value.V4? ==> ':' !in s)
          && (net.parse(s).value.V6? ==> ManyColons(s)))
  }

  predicate ManyColons(s: string) {
    ':' in s && ':' in s[..LastIndexOf(s, ':')]
  }

  // ---- a lawful syntax, so that the law can be met ----

  function PlainShow(a: IpAddr): string {
    match a
    case V4(n) => PrintNat(n)
    case V6(n) => "::" + PrintNat(n)
  }

  function PlainParse(s: string): Option<IpAddr> {
    if s != "" && Digits(s) then Some(V4(DigitsValue(s)))
    else if |s| > 2 && s[0] == ':' && s[1] == ':' && Digits(s[2..]) then Some(V6(DigitsValue(s[2..])))
    else None
  }

  /** Some syntax is lawful: plain numbers, those of IPv6 behind two colons. */
  lemma PlainIsLawful()
    ensures Lawful(AddrSyntax(PlainParse, PlainShow))
  {
    var net := AddrSyntax(PlainParse, PlainShow);
    hide PrintNat, DigitsValue;
    forall a ensures net.parse(net.show(a)) == Some(a) {
      PlainRoundTrip(a);
    }
    forall s | net.parse(s).Some?
      ensures s != "" && (forall c :: c in s ==> IsAddrChar(c)) && (net.parse(s).value.V4? ==> ':' !in s)
      ensures net.parse(s).value.V6? ==> ManyColons(s)
    {
      if net.parse(s).value.V6? {
        assert s == [s[0], s[1]] + s[2..];
        LastColonOfTwo(s);
      }
    }
  }

  lemma PlainRoundTrip(a: IpAddr)
    ensures PlainParse(PlainShow(a)) == Some(a)
  {
    hide PrintNat, DigitsValue;
    if a.V6? {
      var t := PrintNat(a.bits);
      var s := "::" + t;
      assert s[2..] == t && s[0] == ':' && s[1] == ':' && |s| > 2;
      assert !IsDigit(s[0]);
      assert !Digits(s);
    }
  }

  lemma LastColonOfTwo(s: string)
    requires |s| > 2 && s[0] == ':' && s[1] == ':'
    ensures ManyColons(s)
  {
    var i := LastIndexOf(s, ':');
    assert i >= 1;
    assert s[..i][0] == ':';
  }

  predicate IsV6(net: AddrSyntax, s: string) {
    net.parse(s).Some? && net.parse(s).value.V6?
  }

  datatype Target = Target(host: string, port: Option<Port>)

  /** An opening bracket with a closing one behind it. */
  predicate Bracketed(s: string) {
    s != "" && s[0] == '[' && ']' in s[1..]
  }

  function SplitBracketed(s: string): Target
    requires Bracketed(s)
  {
    var rest := s[1..];
    var close := IndexOf(rest, ']');
    var after := rest[close + 1..];
    Target(rest[..close], if after != "" && after[0] == ':' then ParseU16(after[1..]) else None)
  }

  /** Exactly one colon, and a port behind it. */
  predicate HostColonPort(s: string) {
    var i := LastIndexOf(s, ':');
    i >= 0 && ParseU16(s[i + 1..]).Some? && ':' !in s[..i]
  }

  function SplitTarget(net: AddrSyntax, text: string): Target {
    var s := Trim(text);
    if Bracketed(s) then SplitBracketed(s)
    else if IsV6(net, s) then Target(s, None)
    else if HostColonPort(s) then
      var i := LastIndexOf(s, ':');
      Target(s[..i], ParseU16(s[i + 1..]))
    else Target(s, None)
  }

  function WithPort(host: string, port: Port): string {
    host + [':'] + PrintNat(port)
  }

  function JoinTarget(net: AddrSyntax, host: string, port: Option<Port>): string {
    match port
    case None => host
    case Some(p) => if IsV6(net, host) then "[" + host + "]:" + PrintNat(p) else WithPort(host, p)
  }

  /** When a rule file can spell a target at all. */
  predicate Spellable(net: AddrSyntax, host: string, port: Option<Port>) {
    match port
    case None => Trimmed(host) && !Bracketed(host) && (IsV6(net, host) || !HostColonPort(host))
    case Some(p) => IsV6(net, host) || (':' !in host && !Bracketed(host) && (host == "" || !IsWs(host[0])))
  }

  /** Splitting what joining wrote gives the target back exactly when it is spellable. */
  lemma SplitJoin(net: AddrSyntax, host: string, port: Option<Port>)
    requires Lawful(net)
    ensures SplitTarget(net, JoinTarget(net, host, port)) == Target(host, port) <==> Spellable(net, host, port)
  {
    match port {
      case None => SplitJoinPortless(net, host);
      case Some(p) =>
        if IsV6(net, host) {
          SplitJoinV6(net, host, p);
        } else {
          SplitJoinNamed(net, host, p);
        }
    }
  }

  lemma SplitJoinPortless(net: AddrSyntax, host: string)
    ensures SplitTarget(net, host) == Target(host, None) <==> Spellable(net, host, None)
  {
    var s := Trim(host);
    assert Trimmed(host) <==> s == host;
    if Bracketed(s) {
      assert |SplitBracketed(s).host| < |s| <= |host|;
    }
  }

  lemma AddressFacts(net: AddrSyntax, s: string)
    requires Lawful(net) && net.parse(s).Some?
    ensures s != "" && NoWs(s) && Trimmed(s)
    ensures '[' !in s && ']' !in s && '#' !in s && '\n' !in s
    ensures net.parse(s).value.V4? ==> ':' !in s
    ensures net.parse(s).value.V6? ==> ManyColons(s)
  {
    assert forall i :: 0 <= i < |s| ==> s[i] in s && IsAddrChar(s[i]);
  }

  lemma SplitOfBracketed(host: string, digits: string)
    requires ']' !in host && digits != "" && Digits(digits)
    ensures var s := ['['] + (host + [']'] + ([':'] + digits));
            Trimmed(s) && Bracketed(s) && SplitBracketed(s) == Target(host, ParseU16(digits))
  {
    hide IndexOf, ParseU16;
    var rest := host + [']'] + ([':'] + digits);
    var s := ['['] + rest;
    IndexOfAppend(host, ']', [':'] + digits);
    assert rest[|host|] == ']' && s[1..] == rest;
    assert rest[..|host|] == host && rest[|host| + 1..] == [':'] + digits;
    assert ([':'] + digits)[1..] == digits;
    assert IsDigit(digits[|digits| - 1]) && s[|s| - 1] == digits[|digits| - 1];
  }

  lemma SplitJoinV6(net: AddrSyntax, host: string, p: Port)
    requires Lawful(net) && IsV6(net, host)
    ensures SplitTarget(net, "[" + host + "]:" + PrintNat(p)) == Target(host, Some(p))
  {
    ParsePrintU16(p);
    AddressFacts(net, host);
    var digits := PrintNat(p);
    SplitOfBracketed(host, digits);
    BracketedText(host, digits);
    hide *;
    SplitTargetOfBracketed(net, ['['] + (host + [']'] + ([':'] + digits)));
  }

  lemma BracketedText(host: string, digits: string)
    ensures "[" + host + "]:" + digits == ['['] + (host + [']'] + ([':'] + digits))
  {
    assert "]:" + digits == [']'] + ([':'] + digits);
    assert "[" + host + "]:" + digits == "[" + (host + ("]:" + digits));
    assert host + [']'] + ([':'] + digits) == host + ([']'] + ([':'] + digits));
  }

  lemma SplitTargetOfBracketed(net: AddrSyntax, s: string)
    requires Trimmed(s) && Bracketed(s)
    ensures SplitTarget(net, s) == SplitBracketed(s)
  {
  }

  lemma {:induction false} TrimStartBefore(h: string, c: char, rest: string)
    requires !IsWs(c)
    ensures TrimStart(h + [c] + rest) == TrimStart(h) + [c] + rest
  {
    if h == "" {
      assert h + [c] + rest == [c] + rest;
    } else {
      assert (h + [c] + rest)[1..] == h[1..] + [c] + rest;
      if IsWs(h[0]) { TrimStartBefore(h[1..], c, rest); }
    }
  }

  /** A port behind a name puts no bracket into play. */
  lemma BracketsAreTheHosts(h: string, digits: string)
    requires Digits(digits)
    ensures var t := h + [':'] + digits;
            && (Bracketed(t) <==> Bracketed(h))
            && (Bracketed(t) ==> |SplitBracketed(t).host| < |h|)
  {
    var t := h + [':'] + digits;
    if h != "" {
      var tail := [':'] + digits;
      assert t[1..] == h[1..] + tail;
      assert ']' !in tail;
      if ']' in h[1..] {
        var i := IndexOf(h[1..], ']');
        assert h[1..] == h[1..][..i] + [']'] + h[1..][i + 1..];
        assert t[1..] == h[1..][..i] + [']'] + (h[1..][i + 1..] + tail);
        IndexOfAppend(h[1..][..i], ']', h[1..][i + 1..] + tail);
      }
    }
  }

  lemma Around(a: string, c: char, b: string)
    ensures var t := a + [c] + b;
            |t| == |a| + 1 + |b| && t[..|a|] == a && t[|a| + 1..] == b && (b != "" ==> t[|t| - 1] == b[|b| - 1])
  {
  }

  /** What splitting sees of a name with a port behind it. */
  lemma WithPortParts(h: string, p: Port)
    ensures var t := WithPort(h, p);
            && LastIndexOf(t, ':') == |h| < |t| && t[..|h|] == h && ParseU16(t[|h| + 1..]) == Some(p)
            && (Bracketed(t) <==> Bracketed(h))
            && (Bracketed(t) ==> |SplitBracketed(t).host| < |h|)
            && (t[|t| - 1] != ':' && !IsWs(t[|t| - 1]))
  {
    hide ParseU16, PrintNat, LastIndexOf, Bracketed, SplitBracketed;
    ParsePrintU16(p);
    var digits := PrintNat(p);
    BracketsAreTheHosts(h, digits);
    LastIndexOfAppend(h, ':', digits);
    Around(h, ':', digits);
    assert IsDigit(digits[|digits| - 1]);
  }

  lemma TrimOfWithPort(host: string, p: Port)
    ensures Trim(WithPort(host, p)) == WithPort(TrimStart(host), p)
  {
    WithPortParts(TrimStart(host), p);
    hide TrimStart, LastIndexOf, Bracketed;
    TrimStartBefore(host, ':', PrintNat(p));
  }

  /** The ways of reading a text whose last colon has a port behind it. */
  lemma SplitTargetByColon(net: AddrSyntax, text: string, h: string, t: string, p: Port)
    requires Trim(text) == t && LastIndexOf(t, ':') == |h| < |t| && t[..|h|] == h && ParseU16(t[|h| + 1..]) == Some(p)
    requires IsV6(net, t) ==> ':' in h
    ensures !Bracketed(t) ==> (SplitTarget(net, text) == Target(h, Some(p)) <==> ':' !in h)
    ensures !Bracketed(t) && ':' in h ==> SplitTarget(net, text).port == None
    ensures Bracketed(t) ==> SplitTarget(net, text) == SplitBracketed(t)
  {
    hide Bracketed, ParseU16, LastIndexOf, Trim, IsV6;
  }

  lemma NotV6WithOneColon(net: AddrSyntax, h: string, t: string)
    requires Lawful(net) && LastIndexOf(t, ':') == |h| <= |t| && t[..|h|] == h && IsV6(net, t)
    ensures ':' in h
  {
    AddressFacts(net, t);
  }

  lemma TrimStartFixed(s: string)
    ensures TrimStart(s) == s <==> s == "" || !IsWs(s[0])
    ensures |TrimStart(s)| <= |s|
  {
  }

  lemma SplitJoinNamed(net: AddrSyntax, host: string, p: Port)
    requires Lawful(net)
    ensures SplitTarget(net, WithPort(host, p)) == Target(host, Some(p))
            <==> ':' !in host && !Bracketed(host) && (host == "" || !IsWs(host[0]))
  {
    hide *;
    var h := TrimStart(host);
    var t := WithPort(h, p);
    TrimStartFixed(host);
    WithPortParts(h, p);
    TrimOfWithPort(host, p);
    if IsV6(net, t) { NotV6WithOneColon(net, h, t); }
    SplitTargetByColon(net, WithPort(host, p), h, t, p);
  }
}
