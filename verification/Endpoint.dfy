/** The endpoint file and the target address of the heavy daemon (bins/cognis-mcpd/src/proxy.rs), its reader in the
    extension (apps/cognis-mcp/src/mcpServer.ts), and the derived ports. */
module Endpoints {
  import opened Options

  // ---- Text -------------------------------------------------------------------------------------------

  datatype Language = Rust | Js

  /** What `trim` removes. The two languages differ on U+0085 and U+FEFF. */
  predicate Blank(c: char, lang: Language) {
    || '\U{0009}' <= c <= '\U{000D}' || c == ' ' || c == '\U{00A0}' || c == '\U{1680}' || '\U{2000}' <= c <= '\U{200A}'
    || c == '\U{2028}' || c == '\U{2029}' || c == '\U{202F}' || c == '\U{205F}' || c == '\U{3000}'
    || (lang == Rust && c == '\U{0085}') || (lang == Js && c == '\U{FEFF}')
  }

  function TrimStart(s: string, lang: Language): string {
    if s != [] && Blank(s[0], lang) then TrimStart(s[1..], lang) else s
  }

  function TrimEnd(s: string, lang: Language): string {
    if s != [] && Blank(s[|s| - 1], lang) then TrimEnd(s[..|s| - 1], lang) else s
  }

  function Trim(s: string, lang: Language): string { TrimEnd(TrimStart(s, lang), lang) }

  predicate Tight(s: string, lang: Language) {
    s == [] || (!Blank(s[0], lang) && !Blank(s[|s| - 1], lang))
  }

  lemma {:induction false} TrimStartTight(s: string, lang: Language)
    ensures var t := TrimStart(s, lang); (t == [] || !Blank(t[0], lang)) && forall c :: c in t ==> c in s
  {
    if s != [] && Blank(s[0], lang) {
      TrimStartTight(s[1..], lang);
    }
  }

  lemma {:induction false} TrimEndTight(s: string, lang: Language)
    ensures var t := TrimEnd(s, lang); t <= s && (t == [] || !Blank(t[|t| - 1], lang))
  {
    if s != [] && Blank(s[|s| - 1], lang) {
      TrimEndTight(s[..|s| - 1], lang);
    }
  }

  /** Trimming leaves text with no blank at either end, and such text alone. */
  lemma {:induction false} TrimIsTight(s: string, lang: Language)
    ensures Tight(Trim(s, lang), lang) && (Tight(s, lang) <==> Trim(s, lang) == s)
    ensures forall c :: c in Trim(s, lang) ==> c in s
  {
    hide Blank;
    var t := TrimStart(s, lang);
    TrimStartTight(s, lang);
    TrimEndTight(t, lang);
    assert Trim(s, lang) <= t;
  }

  function SplitOnce(s: string, c: char): Option<(string, string)> {
    if s == [] then None
    else if s[0] == c then Some(("", s[1..]))
    else match SplitOnce(s[1..], c)
      case None => None
      case Some(p) => Some(([s[0]] + p.0, p.1))
  }

  lemma {:induction false} SplitOnceMeans(s: string, c: char)
    ensures SplitOnce(s, c).None? <==> c !in s
    ensures SplitOnce(s, c).Some? ==>
      var (a, b) := SplitOnce(s, c).value; s == a + [c] + b && c !in a
  {
    if s != [] && s[0] != c {
      SplitOnceMeans(s[1..], c);
      assert s == [s[0]] + s[1..];
    }
  }

  lemma {:induction false} SplitOnceAt(a: string, c: char, b: string)
    requires c !in a
    ensures SplitOnce(a + [c] + b, c) == Some((a, b))
  {
    if a != [] {
      SplitOnceAt(a[1..], c, b);
      assert (a + [c] + b)[1..] == a[1..] + [c] + b;
      assert [a[0]] + a[1..] == a;
    } else {
      assert (a + [c] + b)[1..] == b;
    }
  }

  function ToLowerChar(c: char): char { if 'A' <= c <= 'Z' then c + ' ' else c }

  function ToAsciiLowercase(s: string): string { seq(|s|, i requires 0 <= i < |s| => ToLowerChar(s[i])) }

  lemma {:induction false} LowerKeeps(s: string)
    ensures ToAsciiLowercase(ToAsciiLowercase(s)) == ToAsciiLowercase(s)
    ensures Tight(s, Rust) ==> Tight(ToAsciiLowercase(s), Rust)
  {
    assert forall i :: 0 <= i < |s| ==> ToLowerChar(ToLowerChar(s[i])) == ToLowerChar(s[i]);
  }

  // ---- Port numbers -----------------------------------------------------------------------------------

  predicate Digits(s: string) { forall i :: 0 <= i < |s| ==> '0' <= s[i] <= '9' }

  function Value(s: string): nat
    requires Digits(s)
  {
    if s == [] then 0 else 10 * Value(s[..|s| - 1]) + (s[|s| - 1] as int - '0' as int)
  }

  function Print(n: nat): string {
    (if n < 10 then "" else Print(n / 10)) + [('0' as int + n % 10) as char]
  }

  /** An unsigned 16-bit number; a plus sign and leading zeros are accepted. */
  function ParsePort(s: string): Option<nat> {
    var digits := if s != [] && s[0] == '+' then s[1..] else s;
    if digits == [] || !Digits(digits) || Value(digits) > 0xFFFF then None else Some(Value(digits))
  }

  lemma {:induction false} PrintParses(n: nat)
    ensures Digits(Print(n)) && Value(Print(n)) == n && Print(n) != []
  {
    if n >= 10 {
      PrintParses(n / 10);
      assert Print(n)[..|Print(n)| - 1] == Print(n / 10);
    } else {
      assert Print(n)[..0] == [];
    }
  }

  lemma {:induction false} PortRoundTrip(n: nat)
    requires n <= 0xFFFF
    ensures ParsePort(Print(n)) == Some(n)
  {
    PrintParses(n);
  }

  // ---- Targets ----------------------------------------------------------------------------------------

  datatype ProxyTarget = ProxyTarget(url: string, host: string, port: nat, credential: string, modelFingerprint: string)

  const Http := "http://"
  const Https := "https://"

  function StripScheme(s: string): Option<string> {
    if Http <= s then Some(s[|Http|..])
    else if Https <= s then Some(s[|Https|..])
    else None
  }

  function CanonicalUrl(host: string, port: nat): string { Http + host + ":" + Print(port) + "/mcp" }

  function HostPort(rest: string): string { match SplitOnce(rest, '/') case Some(p) => p.0 case None => rest }

  function Parse(url: string, credential: string, fingerprint: string): Option<ProxyTarget> {
    match StripScheme(Trim(url, Rust))
    case None => None
    case Some(rest) =>
      match SplitOnce(HostPort(rest), ':')
      case None => None
      case Some((host, portText)) =>
        match ParsePort(portText)
        case None => None
        case Some(port) =>
          if host == "" || port == 0 then None
          else Some(ProxyTarget(CanonicalUrl(host, port), host, port, Trim(credential, Rust),
                                ToAsciiLowercase(Trim(fingerprint, Rust))))
  }

  /** The targets that parsing gives: those of a host without separators and a proper port, in canonical form. */
  predicate Proper(t: ProxyTarget) {
    && t.host != "" && '/' !in t.host && ':' !in t.host && 0 < t.port <= 0xFFFF
    && t.url == CanonicalUrl(t.host, t.port) && Tight(t.credential, Rust)
    && Tight(t.modelFingerprint, Rust) && ToAsciiLowercase(t.modelFingerprint) == t.modelFingerprint
  }

  lemma {:induction false} ParsedIsProper(url: string, credential: string, fingerprint: string)
    requires Parse(url, credential, fingerprint).Some?
    ensures Proper(Parse(url, credential, fingerprint).value)
  {
    var rest := StripScheme(Trim(url, Rust)).value;
    SplitOnceMeans(rest, '/');
    var hostPort := HostPort(rest);
    SplitOnceMeans(hostPort, ':');
    TrimIsTight(credential, Rust);
    TrimIsTight(fingerprint, Rust);
    LowerKeeps(Trim(fingerprint, Rust));
  }

  lemma {:induction false} UrlIsTight(host: string, port: nat)
    ensures var u := CanonicalUrl(host, port);
      Tight(u, Rust) && Tight(u, Js) && u[0] == 'h' && u[|u| - 1] == 'p'
  {
  }

  lemma {:induction false} PrintIsPlain(n: nat, c: char)
    requires !('0' <= c <= '9')
    ensures c !in Print(n)
  {
    PrintParses(n);
  }

  lemma {:induction false} CanonicalParts(host: string, port: nat)
    requires '/' !in host && ':' !in host
    ensures StripScheme(CanonicalUrl(host, port)) == Some(host + ":" + Print(port) + "/mcp")
    ensures SplitOnce(host + ":" + Print(port) + "/mcp", '/') == Some((host + ":" + Print(port), "mcp"))
    ensures SplitOnce(host + ":" + Print(port), ':') == Some((host, Print(port)))
  {
    hide Print;
    var hostPort := host + ":" + Print(port);
    PrintIsPlain(port, '/');
    SplitOnceAt(hostPort, '/', "mcp");
    assert hostPort + ['/'] + "mcp" == hostPort + "/mcp";
    SplitOnceAt(host, ':', Print(port));
    AfterScheme(hostPort + "/mcp");
    assert CanonicalUrl(host, port) == Http + (hostPort + "/mcp");
  }

  lemma {:induction false} AfterScheme(rest: string)
    ensures StripScheme(Http + rest) == Some(rest)
  {
    assert (Http + rest)[|Http|..] == rest;
  }

  predicate AllBlank(s: string) { forall i :: 0 <= i < |s| ==> Blank(s[i], Rust) }

  lemma {:induction false} TrimAround(before: string, core: string, after: string)
    requires AllBlank(before) && AllBlank(after) && core != "" && Tight(core, Rust)
    ensures Trim(before + core + after, Rust) == core
  {
    hide Blank;
    if before != "" {
      assert (before + core + after)[1..] == before[1..] + core + after;
      TrimAround(before[1..], core, after);
    } else {
      assert before + core + after == core + after;
      assert TrimStart(core + after, Rust) == core + after;
      TrimTail(core, after);
    }
  }

  lemma {:induction false} TrimTail(core: string, after: string)
    requires AllBlank(after) && core != "" && Tight(core, Rust)
    ensures TrimEnd(core + after, Rust) == core
  {
    hide Blank;
    if after == "" {
      assert core + after == core;
    } else {
      var n := |after| - 1;
      assert (core + after)[|core + after| - 1] == after[n];
      assert (core + after)[..|core + after| - 1] == core + after[..n];
      TrimTail(core, after[..n]);
    }
  }

  /** An address: a scheme, a host and a port without separators, and a path or none. */
  predicate Address(url: string, scheme: string, host: string, portText: string, path: string) {
    && (scheme == "http://" || scheme == "https://")
    && '/' !in host && ':' !in host && '/' !in portText
    && (path == "" || path[0] == '/')
    && url == scheme + host + ":" + portText + path
  }

  lemma {:induction false} AddressParts(url: string, scheme: string, host: string, portText: string, path: string)
    requires Address(url, scheme, host, portText, path)
    ensures StripScheme(url) == Some(host + ":" + portText + path)
    ensures SplitOnce(host + ":" + portText, ':') == Some((host, portText))
    ensures var rest := host + ":" + portText + path;
      HostPort(rest) == host + ":" + portText
  {
    var hostPort := host + ":" + portText;
    var rest := hostPort + path;
    assert url == scheme + rest;
    SchemeOf(scheme, rest);
    SplitOnceAt(host, ':', portText);
    assert host + [':'] + portText == hostPort;
    assert '/' !in hostPort;
    if path == "" {
      assert rest == hostPort;
      SplitOnceMeans(rest, '/');
    } else {
      assert path == ['/'] + path[1..];
      assert rest == hostPort + ['/'] + path[1..];
      SplitOnceAt(hostPort, '/', path[1..]);
    }
  }

  lemma {:induction false} SchemeOf(scheme: string, rest: string)
    requires scheme == "http://" || scheme == "https://"
    ensures StripScheme(scheme + rest) == Some(rest)
  {
    if scheme == "http://" {
      AfterScheme(rest);
    } else {
      assert (scheme + rest)[4] == 's';
      assert (scheme + rest)[|Https|..] == rest;
    }
  }

  /** An address with any blanks around it is accepted exactly when it has a host and a proper port, and gives just those. */
  lemma {:induction false} ParseAddress(before: string, url: string, after: string, scheme: string, host: string,
                                        portText: string, path: string, credential: string, fingerprint: string)
    requires AllBlank(before) && AllBlank(after) && Tight(url, Rust) && Address(url, scheme, host, portText, path)
    ensures var parsed := Parse(before + url + after, credential, fingerprint); var port := ParsePort(portText);
      && (parsed.Some? <==> host != "" && port.Some? && port.value > 0)
      && (parsed.Some? ==>
            && parsed.value.host == host && parsed.value.port == port.value
            && parsed.value.url == "http://" + host + ":" + Print(port.value) + "/mcp"
            && parsed.value.credential == Trim(credential, Rust)
            && parsed.value.modelFingerprint == ToAsciiLowercase(Trim(fingerprint, Rust)))
  {
    TrimAround(before, url, after);
    AddressParts(url, scheme, host, portText, path);
  }

  /** Nothing but an address is accepted. */
  lemma {:induction false} ParsedIsAddress(url: string, credential: string, fingerprint: string)
    returns (scheme: string, host: string, portText: string, path: string)
    requires Parse(url, credential, fingerprint).Some?
    ensures Address(Trim(url, Rust), scheme, host, portText, path)
    ensures Parse(url, credential, fingerprint).value.host == host
  {
    hide Trim, Blank, ParsePort, CanonicalUrl, ToAsciiLowercase;
    var text := Trim(url, Rust);
    scheme := if Http <= text then Http else Https;
    var rest := StripScheme(text).value;
    host, portText, path := RestParts(rest);
    hide HostPort;
    SchemeAndRest(text, scheme, rest, host, portText, path);
  }

  lemma {:induction false} SchemeAndRest(
      text: string, scheme: string, rest: string, host: string, portText: string, path: string)
    requires scheme <= text && text[|scheme|..] == rest && rest == host + ":" + portText + path
    ensures text == scheme + host + ":" + portText + path
  {
    assert text == scheme + rest;
    assert scheme + (host + ":" + portText + path) == scheme + host + ":" + portText + path;
  }

  lemma {:induction false} RestParts(rest: string) returns (host: string, portText: string, path: string)
    requires SplitOnce(HostPort(rest), ':').Some?
    ensures SplitOnce(HostPort(rest), ':').value == (host, portText) && rest == host + ":" + portText + path
    ensures '/' !in host && ':' !in host && '/' !in portText && (path == "" || path[0] == '/')
  {
    SplitOnceMeans(rest, '/');
    var split := SplitOnce(rest, '/');
    path := if split.Some? then ['/'] + split.value.1 else "";
    assert rest == HostPort(rest) + path && '/' !in HostPort(rest);
    SplitOnceMeans(HostPort(rest), ':');
    host, portText := SplitOnce(HostPort(rest), ':').value.0, SplitOnce(HostPort(rest), ':').value.1;
    assert HostPort(rest) == host + ":" + portText;
  }

  /** A port text is digits, perhaps after one plus sign; leading zeros change nothing. */
  lemma {:induction false} PortTextMeans(digits: string)
    requires digits != "" && Digits(digits)
    ensures ParsePort("+" + digits) == ParsePort(digits)
    ensures ParsePort("0" + digits) == ParsePort(digits)
    ensures ParsePort("-" + digits) == None && ParsePort("++" + digits) == None && ParsePort(digits + " ") == None
    ensures ParsePort("") == None && ParsePort("+") == None
  {
    hide Value;
    assert ("+" + digits)[1..] == digits && digits[0] != '+';
    LeadingZero(digits);
    assert ("++" + digits)[1..] == "+" + digits && ("+" + digits)[0] == '+' && ("-" + digits)[0] == '-';
    var spaced := digits + " ";
    assert spaced[|digits|] == ' ' && spaced[0] == digits[0];
  }

  /** A number is printed in decimal, without leading zeros. */
  lemma {:induction false} PrintMeans(n: nat)
    ensures Digits(Print(n)) && Value(Print(n)) == n && Print(n) != "" && Print(0) == "0"
    ensures n > 0 ==> Print(n)[0] != '0'
  {
    PrintParses(n);
    if n >= 10 {
      PrintMeans(n / 10);
    }
  }

  /** Sixteen bits must hold it. */
  lemma {:induction false} PortNumberMeans(n: nat)
    ensures ParsePort(Print(n)) == if n < 65536 then Some(n) else None
  {
    PrintParses(n);
    hide Print, Value;
  }

  lemma {:induction false} LeadingZero(digits: string)
    requires Digits(digits)
    ensures Digits("0" + digits) && Value("0" + digits) == Value(digits)
  {
    if digits == "" {
      assert "0" + digits == "0" && "0"[..0] == "";
      assert Value("0") == 10 * Value("") + 0;
    } else {
      var n := |digits| - 1;
      assert ("0" + digits)[..n + 1] == "0" + digits[..n];
      LeadingZero(digits[..n]);
    }
  }

  /** The two languages agree on what is blank except for two characters; nothing in an address without blanks is. */
  lemma {:induction false} BlankMeans(c: char)
    ensures Blank(c, Rust) != Blank(c, Js) <==> c == '\U{0085}' || c == '\U{FEFF}'
    ensures c == ' ' || c == '\t' || c == '\n' || c == '\r' ==> Blank(c, Rust) && Blank(c, Js)
    ensures '!' <= c <= '~' ==> !Blank(c, Rust) && !Blank(c, Js)
  {
  }

  /** Only capital letters change, each into its small one. */
  lemma {:induction false} LowerMeans(s: string, i: nat)
    requires i < |s|
    ensures |ToAsciiLowercase(s)| == |s|
    ensures !('A' <= s[i] <= 'Z') ==> ToAsciiLowercase(s)[i] == s[i]
    ensures 'A' <= s[i] <= 'Z' ==>
      'a' <= ToAsciiLowercase(s)[i] <= 'z' && ToAsciiLowercase(s)[i] as int - 'a' as int == s[i] as int - 'A' as int
  {
  }

  /** Parsing reaches a fixed point at once: what it gives parses to itself, and nothing else does. */
  lemma {:induction false} ParseIsNormal(t: ProxyTarget)
    ensures Parse(t.url, t.credential, t.modelFingerprint) == Some(t) <==> Proper(t)
  {
    if Parse(t.url, t.credential, t.modelFingerprint) == Some(t) {
      ParsedIsProper(t.url, t.credential, t.modelFingerprint);
    }
    if Proper(t) {
      UrlIsTight(t.host, t.port);
      TrimIsTight(t.url, Rust);
      TrimIsTight(t.credential, Rust);
      TrimIsTight(t.modelFingerprint, Rust);
      CanonicalParts(t.host, t.port);
      PortRoundTrip(t.port);
    }
  }

  // ---- The file ---------------------------------------------------------------------------------------

  /** What is written; the fingerprint only below a credential. */
  function FileBody(url: string, credential: Option<string>, fingerprint: Option<string>): string {
    var token := if credential.Some? then Trim(credential.value, Rust) else "";
    var fp := if fingerprint.Some? then Trim(fingerprint.value, Rust) else "";
    Trim(url, Rust) + "\n"
    + if token == "" then ""
      else token + "\n" + if fp == "" then "" else fp + "\n"
  }

  function StripCr(line: string): string {
    if line != [] && line[|line| - 1] == '\r' then line[..|line| - 1] else line
  }

  function Field(line: string, lang: Language): seq<string> {
    if Trim(line, lang) == "" then [] else [Trim(line, lang)]
  }

  /** The lines of a text, trimmed, without the empty ones. */
  function Fields(text: string, lang: Language): seq<string>
    decreases |text|
  {
    match SplitOnce(text, '\n')
    case None => Field(text, lang)
    case Some(p) =>
      SplitOnceMeans(text, '\n');
      Field(StripCr(p.0), lang) + Fields(p.1, lang)
  }

  function FieldOr(fields: seq<string>, i: nat): string { if i < |fields| then fields[i] else "" }

  function ReadFile(text: string): Option<ProxyTarget> {
    var fields := Fields(text, Rust);
    if fields == [] then None else Parse(fields[0], FieldOr(fields, 1), FieldOr(fields, 2))
  }

  /** The extension's own reader, which looks for the fingerprint only. */
  function ParseEndpointFingerprint(text: string): Option<string> {
    var fields := Fields(text, Js);
    if |fields| > 2 then Some(fields[2]) else None
  }

  lemma {:induction false} FieldsOfLine(line: string, rest: string, lang: Language)
    requires '\n' !in line
    ensures Fields(line + "\n" + rest, lang) == Field(StripCr(line), lang) + Fields(rest, lang)
  {
    SplitOnceAt(line, '\n', rest);
  }

  lemma {:induction false} TrimIgnoresCr(line: string, lang: Language)
    ensures Trim(StripCr(line), lang) == Trim(line, lang)
  {
    if line != [] && line[|line| - 1] == '\r' {
      TrimAppends(line[..|line| - 1], '\r', lang);
      assert line == line[..|line| - 1] + ['\r'];
    }
  }

  lemma {:induction false} TrimAppends(s: string, c: char, lang: Language)
    requires Blank(c, lang)
    ensures Trim(s + [c], lang) == Trim(s, lang)
  {
    hide Blank;
    if s != [] && Blank(s[0], lang) {
      TrimAppends(s[1..], c, lang);
      assert (s + [c])[1..] == s[1..] + [c];
    } else if s != [] {
      assert TrimStart(s + [c], lang) == s + [c];
      assert (s + [c])[..|s|] == s;
    } else {
      assert [] + [c] == [c] && [c][1..] == [];
    }
  }

  /** A reader takes the lines one by one, whichever way they end, trims them, and passes over blank ones. */
  lemma {:induction false} FieldsMean(line: string, rest: string, lang: Language)
    requires '\n' !in line
    ensures Fields(line + "\n" + rest, lang) == (if Trim(line, lang) == "" then [] else [Trim(line, lang)]) + Fields(rest, lang)
    ensures Fields(line, lang) == if Trim(line, lang) == "" then [] else [Trim(line, lang)]
  {
    hide Trim;
    FieldsOfLine(line, rest, lang);
    TrimIgnoresCr(line, lang);
    SplitOnceMeans(line, '\n');
  }

  /** Of the lines that are not blank the first three matter. */
  lemma {:induction false} ReadLines(url: string, credential: string, fingerprint: string, more: string)
    requires '\n' !in url && '\n' !in credential && '\n' !in fingerprint
    requires Trim(url, Rust) != "" && Trim(credential, Rust) != "" && Trim(fingerprint, Rust) != ""
    ensures ReadFile(url + "\n" + credential + "\n" + fingerprint + "\n" + more) == Parse(url, credential, fingerprint)
    ensures ReadFile(url + "\n" + credential) == Parse(url, credential, "")
    ensures ReadFile(url) == Parse(url, "", "")
  {
    hide Trim, Parse, Fields;
    ThreeFields(url, credential, fingerprint, more, Rust);
    ParseTrims(url, credential, fingerprint);
    ParseTrims(url, credential, "");
    ParseTrims(url, "", "");
    EmptyTrim();
  }

  lemma {:induction false} ReadFingerprint(url: string, credential: string, fingerprint: string, more: string)
    requires '\n' !in url && '\n' !in credential && '\n' !in fingerprint
    requires Trim(url, Js) != "" && Trim(credential, Js) != "" && Trim(fingerprint, Js) != ""
    ensures ParseEndpointFingerprint(url + "\n" + credential + "\n" + fingerprint + "\n" + more) == Some(Trim(fingerprint, Js))
    ensures ParseEndpointFingerprint(url + "\n" + credential) == None
  {
    hide Trim, Fields;
    ThreeFields(url, credential, fingerprint, more, Js);
  }

  lemma {:induction false} ParseTrims(url: string, credential: string, fingerprint: string)
    ensures Parse(Trim(url, Rust), Trim(credential, Rust), Trim(fingerprint, Rust)) == Parse(url, credential, fingerprint)
  {
    TrimIsTight(url, Rust);
    TrimIsTight(credential, Rust);
    TrimIsTight(fingerprint, Rust);
    TrimIsTight(Trim(url, Rust), Rust);
    TrimIsTight(Trim(credential, Rust), Rust);
    TrimIsTight(Trim(fingerprint, Rust), Rust);
    hide Trim, Tight;
  }

  lemma {:induction false} ThreeFields(
      url: string, credential: string, fingerprint: string, more: string, lang: Language)
    requires '\n' !in url && '\n' !in credential && '\n' !in fingerprint
    requires Trim(url, lang) != "" && Trim(credential, lang) != "" && Trim(fingerprint, lang) != ""
    ensures [Trim(url, lang), Trim(credential, lang), Trim(fingerprint, lang)]
         <= Fields(url + "\n" + credential + "\n" + fingerprint + "\n" + more, lang)
    ensures Fields(url + "\n" + credential, lang) == [Trim(url, lang), Trim(credential, lang)]
    ensures Fields(url, lang) == [Trim(url, lang)]
  {
    hide Trim, Fields;
    FieldsMean(url, credential + "\n" + (fingerprint + "\n" + more), lang);
    FieldsMean(credential, fingerprint + "\n" + more, lang);
    FieldsMean(fingerprint, more, lang);
    FieldsMean(url, credential, lang);
    assert url + "\n" + credential + "\n" + fingerprint + "\n" + more
        == url + "\n" + (credential + "\n" + (fingerprint + "\n" + more));
  }

  /** What the file holds: one line each, as many as there are. */
  lemma {:induction false} FileText(url: string, credential: string, fingerprint: string)
    requires Tight(url, Rust) && Tight(credential, Rust) && Tight(fingerprint, Rust)
    requires credential != "" && fingerprint != ""
    ensures FileBody(url, None, Some(fingerprint)) == url + "\n" == FileBody(url, Some(" "), Some(fingerprint))
    ensures FileBody(url, Some(credential), None) == url + "\n" + credential + "\n" == FileBody(url, Some(credential), Some(" "))
    ensures FileBody(url, Some(credential), Some(fingerprint)) == url + "\n" + credential + "\n" + fingerprint + "\n"
  {
    TrimIsTight(url, Rust);
    TrimIsTight(credential, Rust);
    TrimIsTight(fingerprint, Rust);
    BlankTrim();
    hide Trim, Tight;
    assert url + "\n" + (credential + "\n" + "") == url + "\n" + credential + "\n";
    assert url + "\n" + (credential + "\n" + (fingerprint + "\n")) == url + "\n" + credential + "\n" + fingerprint + "\n";
    assert url + "\n" + "" == url + "\n";
  }

  lemma {:induction false} BlankTrim()
    ensures Trim(" ", Rust) == ""
  {
    assert " "[1..] == "";
  }

  lemma {:induction false} TightLine(line: string)
    requires Tight(line, Rust)
    ensures StripCr(line) == line && Field(line, Rust) == if line == "" then [] else [line]
  {
    TrimIsTight(line, Rust);
  }

  /** The fields of what is written, for either reader. */
  lemma {:induction false} WrittenFields(t: ProxyTarget, lang: Language)
    requires Proper(t) && '\n' !in t.url && '\n' !in t.credential && '\n' !in t.modelFingerprint
    ensures Fields(FileBody(t.url, Some(t.credential), Some(t.modelFingerprint)), lang) ==
      Field(t.url, lang)
      + if t.credential == "" then [] else Field(t.credential, lang) + Field(t.modelFingerprint, lang)
  {
    var u, c, f := t.url, t.credential, t.modelFingerprint;
    UrlIsTight(t.host, t.port);
    TrimIsTight(u, Rust);
    TrimIsTight(c, Rust);
    TrimIsTight(f, Rust);
    TightLine(u);
    TightLine(c);
    TightLine(f);
    hide Trim, Blank, Proper, Tight;
    NoText(lang);
    var last := if f == "" then "" else f + "\n" + "";
    if f == "" {
      EmptyField(lang);
    } else {
      FieldsOfLine(f, "", lang);
    }
    assert Fields(last, lang) == Field(f, lang);
    var mid := if c == "" then "" else c + "\n" + last;
    if c != "" {
      FieldsOfLine(c, last, lang);
    }
    FieldsOfLine(u, mid, lang);
    assert FileBody(u, Some(c), Some(f)) == u + "\n" + mid by { assert f + "\n" + "" == f + "\n"; }
  }

  lemma {:induction false} NoText(lang: Language)
    ensures Fields("", lang) == []
  {
  }

  lemma {:induction false} EmptyField(lang: Language)
    ensures Field("", lang) == []
  {
  }

  lemma {:induction false} FieldsHaveNoBreaks(text: string, lang: Language, i: nat)
    requires i < |Fields(text, lang)|
    ensures '\n' !in Fields(text, lang)[i]
    decreases |text|
  {
    hide Blank;
    SplitOnceMeans(text, '\n');
    match SplitOnce(text, '\n')
    case None => TrimIsTight(text, lang);
    case Some(p) =>
      var first := Field(StripCr(p.0), lang);
      TrimIsTight(StripCr(p.0), lang);
      if i >= |first| {
        FieldsHaveNoBreaks(p.1, lang, i - |first|);
      }
  }

  /** What is read has no line break anywhere. */
  lemma {:induction false} ReadHasNoBreaks(text: string)
    requires ReadFile(text).Some?
    ensures var t := ReadFile(text).value; '\n' !in t.url && '\n' !in t.credential && '\n' !in t.modelFingerprint
  {
    var fields := Fields(text, Rust);
    FieldsHaveNoBreaks(text, Rust, 0);
    if |fields| > 1 { FieldsHaveNoBreaks(text, Rust, 1); }
    if |fields| > 2 { FieldsHaveNoBreaks(text, Rust, 2); }
    ParseHasNoBreaks(fields[0], FieldOr(fields, 1), FieldOr(fields, 2));
  }

  lemma {:induction false} ParseHasNoBreaks(url: string, credential: string, fingerprint: string)
    requires Parse(url, credential, fingerprint).Some? && '\n' !in url && '\n' !in credential && '\n' !in fingerprint
    ensures var t := Parse(url, credential, fingerprint).value;
      '\n' !in t.url && '\n' !in t.credential && '\n' !in t.modelFingerprint
  {
    hide Blank, Trim, ToAsciiLowercase, Print, ParsePort, CanonicalUrl;
    TrimIsTight(url, Rust);
    TrimIsTight(credential, Rust);
    TrimIsTight(fingerprint, Rust);
    var t := Parse(url, credential, fingerprint).value;
    var rest := StripScheme(Trim(url, Rust)).value;
    SplitOnceMeans(rest, '/');
    var hostPort := HostPort(rest);
    SplitOnceMeans(hostPort, ':');
    NoBreakInParts(Trim(url, Rust), rest, hostPort, t.host);
    UrlHasNoBreaks(t.host, t.port);
    LowerHasNoBreaks(Trim(fingerprint, Rust));
  }

  lemma {:induction false} UrlHasNoBreaks(host: string, port: nat)
    requires '\n' !in host
    ensures '\n' !in CanonicalUrl(host, port)
  {
    hide Print;
    PrintIsPlain(port, '\n');
    assert '\n' !in Http + host;
    assert '\n' !in Http + host + ":" + Print(port);
  }

  lemma {:induction false} NoBreakInParts(url: string, rest: string, hostPort: string, host: string)
    requires '\n' !in url && StripScheme(url) == Some(rest) && hostPort <= rest && host <= hostPort
    ensures '\n' !in host
  {
  }

  lemma {:induction false} LowerHasNoBreaks(s: string)
    requires '\n' !in s
    ensures '\n' !in ToAsciiLowercase(s)
  {
  }

  /** Without line breaks, what is read is what was written, as far as it was written. */
  lemma {:induction false} ReadsBack(t: ProxyTarget)
    requires Proper(t) && '\n' !in t.url && '\n' !in t.credential && '\n' !in t.modelFingerprint
    ensures ReadFile(FileBody(t.url, Some(t.credential), Some(t.modelFingerprint))) ==
      if t.credential == "" then Parse(t.url, "", "") else Parse(t.url, t.credential, t.modelFingerprint)
  {
    WrittenFields(t, Rust);
    UrlIsTight(t.host, t.port);
    TightLine(t.url);
    TightLine(t.credential);
    TightLine(t.modelFingerprint);
    hide Parse, FileBody, Fields, Field, CanonicalUrl;
  }

  /** A target survives the file exactly when no field has a line break and a fingerprint comes with a credential. */
  lemma {:induction false} FileRoundTripIff(t: ProxyTarget)
    requires Proper(t)
    ensures ReadFile(FileBody(t.url, Some(t.credential), Some(t.modelFingerprint))) == Some(t) <==>
      '\n' !in t.url && '\n' !in t.credential && '\n' !in t.modelFingerprint
      && (t.credential != "" || t.modelFingerprint == "")
  {
    var body := FileBody(t.url, Some(t.credential), Some(t.modelFingerprint));
    ParseIsNormal(t);
    if ReadFile(body) == Some(t) {
      ReadHasNoBreaks(body);
    }
    if '\n' !in t.url && '\n' !in t.credential && '\n' !in t.modelFingerprint {
      ReadsBack(t);
      if t.credential == "" {
        BareParse(t.url);
      }
    }
    hide Parse, ReadFile, FileBody, Proper;
  }

  lemma {:induction false} BareParse(url: string)
    ensures Parse(url, "", "").Some? ==>
      Parse(url, "", "").value.modelFingerprint == "" && Parse(url, "", "").value.credential == ""
  {
    EmptyTrim();
  }

  lemma {:induction false} EmptyTrim()
    ensures Trim("", Rust) == "" && ToAsciiLowercase("") == ""
  {
  }

  /** The extension reads the same fingerprint exactly when its own trimming leaves the fingerprint as it is and leaves
      something of the credential. */
  lemma {:induction false} ExtensionAgreesIff(t: ProxyTarget)
    requires Proper(t) && '\n' !in t.url && '\n' !in t.credential && '\n' !in t.modelFingerprint
    requires t.credential != "" && t.modelFingerprint != ""
    ensures ParseEndpointFingerprint(FileBody(t.url, Some(t.credential), Some(t.modelFingerprint)))
              == Some(t.modelFingerprint) <==>
      Trim(t.credential, Js) != "" && Trim(t.modelFingerprint, Js) == t.modelFingerprint
  {
    WrittenFields(t, Js);
    UrlIsTight(t.host, t.port);
    TrimIsTight(t.url, Js);
  }

  // ---- Derived ports ----------------------------------------------------------------------------------

  const PortFloor: nat := 49152
  const Span: nat := 16384

  /** The port for a 64-bit digest and a 32-bit offset, in 16-bit arithmetic that wraps. */
  function DerivePort(digest: nat, offset: nat): nat {
    var base := (digest % Span) % 0x10000;
    var sum := (base + offset % 0x10000) % 0x10000;
    (PortFloor + sum % Span) % 0x10000
  }

  /** The extension's formula, over unbounded numbers. */
  function DerivePortUnbounded(digest: nat, offset: nat): nat { PortFloor + (digest % Span + offset) % Span }

  /** Wrapping never shows, and the port is in the dynamic range. */
  lemma {:induction false} PortsAgree(digest: nat, offset: nat)
    ensures DerivePort(digest, offset) == DerivePortUnbounded(digest, offset)
    ensures 49152 <= DerivePort(digest, offset) <= 65535
    ensures DerivePort(digest, 0) == 49152 + digest % 16384
  {
    var base, o := digest % Span, offset % 0x10000;
    ModMod(base + o);
    assert base + offset == base + o + 4 * (offset / 0x10000) * Span;
    ModShift(base + o, 4 * (offset / 0x10000));
  }

  lemma {:induction false} ModMod(x: nat)
    ensures (x % 0x10000) % Span == x % Span
  {
    assert x == x % 0x10000 + 4 * (x / 0x10000) * Span;
    ModShift(x % 0x10000, 4 * (x / 0x10000));
  }

  lemma {:induction false} ModShift(x: nat, k: nat)
    ensures (x + k * Span) % Span == x % Span
  {
    if k > 0 {
      ModShift(x, k - 1);
      assert x + k * Span == (x + (k - 1) * Span) + Span;
    }
  }

  /** Two offsets give the same port exactly when they agree modulo the size of the range. */
  lemma {:induction false} PortsDifferIff(digest: nat, a: nat, b: nat)
    ensures DerivePort(digest, a) == DerivePort(digest, b) <==> a % Span == b % Span
  {
    PortsAgree(digest, a);
    PortsAgree(digest, b);
    hide DerivePort;
    var d := digest % Span;
    OffsetMod(d, a);
    OffsetMod(d, b);
    SumsDiffer(d, a % Span, b % Span);
  }

  lemma {:induction false} OffsetMod(d: nat, a: nat)
    ensures (d + a) % Span == (d + a % Span) % Span
  {
    ModShift(d + a % Span, a / Span);
    assert d + a == d + a % Span + (a / Span) * Span;
  }

  lemma {:induction false} SumsDiffer(d: nat, x: nat, y: nat)
    requires d < Span && x < Span && y < Span
    ensures (d + x) % Span == (d + y) % Span <==> x == y
  {
  }
}
