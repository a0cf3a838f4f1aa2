/** The boot-time parts of a configuration and the text a reload compares them by (pavis-core:
    runtime/listener.rs, runtime/policy.rs, runtime/telemetry.rs and runtime/reload.rs). A listener's
    fingerprint joins the name, the address, and the debug texts of worker count and TLS settings with
    pipes, escaping none in the name; the lemmas show that it still tells any two listeners apart. */
module Listeners {
  import opened Common
  import Etag
  import HistoryNames

  /** An address as printed; printed addresses have no pipe. */
  type Address = s: string | '|' !in s witness "0.0.0.0:0"

  datatype WorkerCount = Auto | Count(workers: nat)

  datatype ClientAuth = NoClientAuth | Optional(caPath: string) | Required(caPath: string)

  datatype Tls = NoTls | Tls(certPath: string, keyPath: string, clientAuth: ClientAuth)

  datatype Listener = Listener(name: string, address: Address, workers: WorkerCount, tls: Tls)

  /** Which characters the standard library prints as they are. */
  type Printable = char -> bool

  /* ---- debug text ---- */

  function HexNumeral(n: nat): (s: string)
    ensures s != "" && Etag.AllLowerHexDigits(s)
  {
    if n < 16 then [Etag.HexDigit(n)] else HexNumeral(n / 16) + [Etag.HexDigit(n % 16)]
  }

  /** One character inside a string literal. */
  function EscapeChar(printable: Printable, c: char): string {
    if c == '"' then "\\\""
    else if c == '\\' then "\\\\"
    else if c == '\0' then "\\0"
    else if c == '\t' then "\\t"
    else if c == '\r' then "\\r"
    else if c == '\n' then "\\n"
    else if printable(c) then [c]
    else "\\u{" + HexNumeral(c as nat) + "}"
  }

  function Escape(printable: Printable, s: string): string {
    if s == "" then "" else EscapeChar(printable, s[0]) + Escape(printable, s[1..])
  }

  function Literal(printable: Printable, s: string): string { "\"" + Escape(printable, s) + "\"" }

  function WorkersText(w: WorkerCount): string {
    match w
    case Auto => "Auto"
    case Count(n) => "Count(" + HistoryNames.Decimal(n) + ")"
  }

  function PathText(p: Printable, path: string): string { "Path(" + Literal(p, path) + ")" }

  function AuthText(p: Printable, a: ClientAuth): string {
    match a
    case NoClientAuth => "Disabled"
    case Optional(ca) => "Optional { ca_path: " + (PathText(p, ca) + " }")
    case Required(ca) => "Required { ca_path: " + (PathText(p, ca) + " }")
  }

  function TlsText(p: Printable, t: Tls): string {
    match t
    case NoTls => "Disabled"
    case Tls(cert, key, auth) =>
      "Enabled { cert_path: " + (PathText(p, cert) +
        (", key_path: " + (PathText(p, key) + (", client_auth: " + (AuthText(p, auth) + " }")))))
  }

  /** `listener_fingerprint`, for one listener. */
  function Fingerprint(p: Printable, l: Listener): string {
    l.name + "|" + l.address + "|" + WorkersText(l.workers) + "|" + TlsText(p, l.tls)
  }

  function Fingerprints(p: Printable, ls: seq<Listener>): seq<string> {
    seq(|ls|, i requires 0 <= i < |ls| => Fingerprint(p, ls[i]))
  }

  /* ---- scanning a text for string literals ---- */

  /** Inside a literal, and just behind a backslash. */
  datatype Scanner = Scanner(inside: bool, escaped: bool)

  const Outside := Scanner(false, false)
  const Inside := Scanner(true, false)

  function Feed(st: Scanner, c: char): Scanner {
    if st.escaped then st.(escaped := false)
    else if c == '\\' then st.(escaped := true)
    else if c == '"' then st.(inside := !st.inside)
    else st
  }

  function Scan(s: string, st: Scanner): Scanner
    decreases |s|
  {
    if s == "" then st else Scan(s[1..], Feed(st, s[0]))
  }

  /** Every pipe of the text lies inside a literal. */
  predicate PipesInside(s: string, st: Scanner)
    decreases |s|
  {
    s == "" || ((s[0] == '|' ==> st == Inside) && PipesInside(s[1..], Feed(st, s[0])))
  }

  lemma {:induction false} ScanConcat(a: string, b: string, st: Scanner)
    ensures Scan(a + b, st) == Scan(b, Scan(a, st))
    ensures PipesInside(a + b, st) <==> PipesInside(a, st) && PipesInside(b, Scan(a, st))
    decreases |a|
  {
    if a == "" {
      assert a + b == b;
    } else {
      assert (a + b)[1..] == a[1..] + b && (a + b)[0] == a[0];
      ScanConcat(a[1..], b, Feed(st, a[0]));
    }
  }

  /** Starting inside rather than outside flips the state throughout. */
  lemma {:induction false} ScanFlips(s: string, st: Scanner)
    ensures Scan(s, st.(inside := !st.inside)) == Scan(s, st).(inside := !Scan(s, st).inside)
    decreases |s|
  {
    if s != "" {
      assert Feed(st.(inside := !st.inside), s[0]) == Feed(st, s[0]).(inside := !Feed(st, s[0]).inside);
      ScanFlips(s[1..], Feed(st, s[0]));
    }
  }

  /** A text that leaves the scanner where it was and shows pipes only inside literals. */
  ghost predicate Closed(s: string, st: Scanner) { Scan(s, st) == st && PipesInside(s, st) }

  lemma ClosedConcat(a: string, b: string, st: Scanner)
    requires Closed(a, st) && Closed(b, st)
    ensures Closed(a + b, st)
  {
    ScanConcat(a, b, st);
  }

  /** Text without quotes, backslashes and pipes. */
  predicate Plain(s: string) { forall i :: 0 <= i < |s| ==> s[i] != '"' && s[i] != '\\' && s[i] != '|' }

  lemma {:induction false} PlainIsClosed(s: string, st: Scanner)
    requires Plain(s) && !st.escaped
    ensures Closed(s, st)
    decreases |s|
  {
    if s != "" { PlainIsClosed(s[1..], st); }
  }

  lemma EscapePairIsClosed(c: char)
    requires c != '|'
    ensures Closed(['\\', c], Inside)
  {
    var e := ['\\', c];
    assert e[1..] == [c] && [c][1..] == "";
    assert Scan([c], Scanner(true, true)) == Scan("", Inside);
  }

  lemma EscapedCharIsClosed(p: Printable, c: char)
    ensures Closed(EscapeChar(p, c), Inside)
  {
    var e := EscapeChar(p, c);
    if c == '"' || c == '\\' || c == '\0' || c == '\t' || c == '\r' || c == '\n' {
      assert e == ['\\', e[1]];
      EscapePairIsClosed(e[1]);
    } else if p(c) {
      assert e == [c] && e[1..] == "";
    } else {
      var rest := "{" + HexNumeral(c as nat) + "}";
      assert e == ['\\', 'u'] + rest;
      assert Plain(rest);
      PlainIsClosed(rest, Inside);
      EscapePairIsClosed('u');
      ClosedConcat(['\\', 'u'], rest, Inside);
    }
  }

  lemma {:induction false} EscapeIsClosed(p: Printable, s: string)
    ensures Closed(Escape(p, s), Inside)
  {
    if s != "" {
      EscapedCharIsClosed(p, s[0]);
      EscapeIsClosed(p, s[1..]);
      ClosedConcat(EscapeChar(p, s[0]), Escape(p, s[1..]), Inside);
    }
  }

  lemma LiteralIsClosed(p: Printable, s: string)
    ensures Closed(Literal(p, s), Outside)
  {
    EscapeIsClosed(p, s);
    assert "\""[1..] == "";
    ScanConcat("\"", Escape(p, s), Outside);
    ScanConcat("\"" + Escape(p, s), "\"", Outside);
  }

  lemma PathTextIsClosed(p: Printable, path: string)
    ensures Closed(PathText(p, path), Outside)
  {
    LiteralIsClosed(p, path);
    PlainIsClosed("Path(", Outside);
    PlainIsClosed(")", Outside);
    ClosedConcat("Path(", Literal(p, path), Outside);
    ClosedConcat("Path(" + Literal(p, path), ")", Outside);
  }

  /** Plain text around closed text is closed. */
  lemma FramedIsClosed(a: string, m: string, b: string)
    requires Plain(a) && Closed(m, Outside) && Closed(b, Outside)
    ensures Closed(a + (m + b), Outside)
  {
    PlainIsClosed(a, Outside);
    ClosedConcat(m, b, Outside);
    ClosedConcat(a, m + b, Outside);
  }

  lemma AuthTextIsClosed(p: Printable, a: ClientAuth)
    ensures Closed(AuthText(p, a), Outside)
  {
    match a
    case NoClientAuth => PlainIsClosed("Disabled", Outside);
    case Optional(ca) =>
      PathTextIsClosed(p, ca);
      PlainIsClosed(" }", Outside);
      FramedIsClosed("Optional { ca_path: ", PathText(p, ca), " }");
    case Required(ca) =>
      PathTextIsClosed(p, ca);
      PlainIsClosed(" }", Outside);
      FramedIsClosed("Required { ca_path: ", PathText(p, ca), " }");
  }

  lemma ThreeFramesAreClosed(a: string, l: string, b: string, m: string, c: string, n: string, d: string)
    requires Plain(a) && Plain(b) && Plain(c) && Plain(d)
    requires Closed(l, Outside) && Closed(m, Outside) && Closed(n, Outside)
    ensures Closed(a + (l + (b + (m + (c + (n + d))))), Outside)
  {
    PlainIsClosed(d, Outside);
    FramedIsClosed(c, n, d);
    FramedIsClosed(b, m, c + (n + d));
    FramedIsClosed(a, l, b + (m + (c + (n + d))));
  }

  lemma WordsArePlain()
    ensures Plain("Enabled { cert_path: ") && Plain(", key_path: ") && Plain(", client_auth: ") && Plain(" }")
  {
  }

  lemma TlsTextIsClosed(p: Printable, t: Tls)
    ensures Closed(TlsText(p, t), Outside)
  {
    match t
    case NoTls => PlainIsClosed("Disabled", Outside);
    case Tls(cert, key, auth) =>
      PathTextIsClosed(p, cert);
      PathTextIsClosed(p, key);
      AuthTextIsClosed(p, auth);
      WordsArePlain();
      ThreeFramesAreClosed("Enabled { cert_path: ", PathText(p, cert), ", key_path: ", PathText(p, key),
                           ", client_auth: ", AuthText(p, auth), " }");
  }

  /* ---- reading the text back ---- */

  lemma Strip(a: string, x: string, y: string)
    requires a + x == a + y
    ensures x == y
  {
    assert x == (a + x)[|a|..] && y == (a + y)[|a|..];
  }

  lemma StripEnd(a: string, x: string, y: string)
    requires x + a == y + a
    ensures x == y
  {
    assert |x| == |y|;
    assert x == (x + a)[..|x|] && y == (y + a)[..|x|];
  }

  lemma {:induction false} HexNumeralInjective(m: nat, n: nat)
    requires HexNumeral(m) == HexNumeral(n)
    ensures m == n
  {
    var s := HexNumeral(m);
    var k := |s| - 1;
    assert s[k] == Etag.HexDigit(m % 16) && s[k] == Etag.HexDigit(n % 16);
    assert m % 16 == n % 16;
    assert |s| == 1 <==> m < 16;
    assert |s| == 1 <==> n < 16;
    if |s| > 1 {
      assert HexNumeral(m / 16) == s[..k] == HexNumeral(n / 16);
      HexNumeralInjective(m / 16, n / 16);
    }
  }

  /** A text without the mark, the mark, and a rest: the mark's first place is where the text ends. */
  lemma FirstMark(mark: char, a: string, x: string, b: string, y: string)
    requires mark !in a && mark !in b && a + [mark] + x == b + [mark] + y
    ensures a == b && x == y
  {
    var s := a + [mark] + x;
    assert s[|a|] == mark && s[|b|] == mark;
    assert forall i :: 0 <= i < |a| ==> s[i] == a[i];
    assert forall i :: 0 <= i < |b| ==> s[i] == b[i];
    assert a == s[..|a|] && b == s[..|b|] && x == s[|a| + 1..] && y == s[|b| + 1..];
  }

  /** ... and from the right. */
  lemma LastMark(mark: char, x: string, a: string, y: string, b: string)
    requires mark !in a && mark !in b && x + [mark] + a == y + [mark] + b
    ensures x == y && a == b
  {
    var s := x + [mark] + a;
    assert s[|x|] == mark && s[|y|] == mark;
    assert forall i :: |x| < i < |s| ==> s[i] == a[i - |x| - 1];
    assert forall i :: |y| < i < |s| ==> s[i] == b[i - |y| - 1];
    assert x == s[..|x|] && y == s[..|y|] && a == s[|x| + 1..] && b == s[|y| + 1..];
  }

  lemma EscapeCharShape(p: Printable, c: char)
    ensures |EscapeChar(p, c)| >= 1 && EscapeChar(p, c)[0] != '"'
    ensures EscapeChar(p, c)[0] == '\\' <==> |EscapeChar(p, c)| >= 2
    ensures EscapeChar(p, c)[0] != '\\' ==> EscapeChar(p, c) == [c]
  {
  }

  /** No escaped character is the beginning of another. */
  lemma EscapeCharPrefixFree(p: Printable, c: char, x: string, d: char, y: string)
    requires EscapeChar(p, c) + x == EscapeChar(p, d) + y
    ensures c == d && x == y
  {
    var e, f := EscapeChar(p, c), EscapeChar(p, d);
    EscapeCharShape(p, c);
    EscapeCharShape(p, d);
    assert (e + x)[0] == e[0] && (f + y)[0] == f[0];
    if e[0] == '\\' {
      assert (e + x)[1] == e[1] && (f + y)[1] == f[1];
      if e[1] == 'u' {
        var m, n := HexNumeral(c as nat), HexNumeral(d as nat);
        assert e + x == "\\u{" + (m + ['}'] + x) && f + y == "\\u{" + (n + ['}'] + y);
        Strip("\\u{", m + ['}'] + x, n + ['}'] + y);
        FirstMark('}', m, x, n, y);
        HexNumeralInjective(c as nat, d as nat);
      }
    }
    Strip(e, x, y);
  }

  lemma Reassociate3(a: string, b: string, c: string, d: string)
    ensures (a + b) + c + d == a + (b + c + d)
  {
  }

  lemma QuoteComesFirst(p: Printable, s: string, x: string)
    ensures (Escape(p, s) + "\"" + x)[0] == '"' <==> s == ""
  {
    if s != "" {
      EscapeCharShape(p, s[0]);
      assert (Escape(p, s) + "\"" + x)[0] == EscapeChar(p, s[0])[0];
    }
  }

  lemma {:induction false} EscapePrefixFree(p: Printable, s: string, x: string, t: string, y: string)
    requires Escape(p, s) + "\"" + x == Escape(p, t) + "\"" + y
    ensures s == t && x == y
    decreases |s|
  {
    QuoteComesFirst(p, s, x);
    QuoteComesFirst(p, t, y);
    if s == "" {
      assert Escape(p, s) + "\"" + x == "\"" + x && Escape(p, t) + "\"" + y == "\"" + y;
      Strip("\"", x, y);
    } else {
      var u, v := Escape(p, s[1..]) + "\"" + x, Escape(p, t[1..]) + "\"" + y;
      Reassociate3(EscapeChar(p, s[0]), Escape(p, s[1..]), "\"", x);
      Reassociate3(EscapeChar(p, t[0]), Escape(p, t[1..]), "\"", y);
      EscapeCharPrefixFree(p, s[0], u, t[0], v);
      EscapePrefixFree(p, s[1..], x, t[1..], y);
      assert s == [s[0]] + s[1..] && t == [t[0]] + t[1..];
    }
  }

  lemma Reassociate(a: string, q: string, e: string, c: string, x: string)
    ensures (a + (q + e + q) + c) + x == (a + q) + (e + q + (c + x))
  {
  }

  lemma PathTextPrefixFree(p: Printable, s: string, x: string, t: string, y: string)
    requires PathText(p, s) + x == PathText(p, t) + y
    ensures s == t && x == y
  {
    Reassociate("Path(", "\"", Escape(p, s), ")", x);
    Reassociate("Path(", "\"", Escape(p, t), ")", y);
    Strip("Path(" + "\"", Escape(p, s) + "\"" + (")" + x), Escape(p, t) + "\"" + (")" + y));
    EscapePrefixFree(p, s, ")" + x, t, ")" + y);
    Strip(")", x, y);
  }

  lemma AuthTextInjective(p: Printable, a: ClientAuth, b: ClientAuth)
    requires AuthText(p, a) == AuthText(p, b)
    ensures a == b
  {
    assert AuthText(p, a)[0] == (if a.NoClientAuth? then 'D' else if a.Optional? then 'O' else 'R');
    assert AuthText(p, b)[0] == (if b.NoClientAuth? then 'D' else if b.Optional? then 'O' else 'R');
    if !a.NoClientAuth? {
      var head := if a.Optional? then "Optional { ca_path: " else "Required { ca_path: ";
      Strip(head, PathText(p, a.caPath) + " }", PathText(p, b.caPath) + " }");
      PathTextPrefixFree(p, a.caPath, " }", b.caPath, " }");
    }
  }

  lemma TlsTextInjective(p: Printable, s: Tls, t: Tls)
    requires TlsText(p, s) == TlsText(p, t)
    ensures s == t
  {
    assert TlsText(p, s)[0] == (if s.NoTls? then 'D' else 'E') && TlsText(p, t)[0] == (if t.NoTls? then 'D' else 'E');
    if s.Tls? {
      var a, b := AuthText(p, s.clientAuth) + " }", AuthText(p, t.clientAuth) + " }";
      var k, l := PathText(p, s.keyPath) + (", client_auth: " + a), PathText(p, t.keyPath) + (", client_auth: " + b);
      var c, d := PathText(p, s.certPath) + (", key_path: " + k), PathText(p, t.certPath) + (", key_path: " + l);
      Strip("Enabled { cert_path: ", c, d);
      PathTextPrefixFree(p, s.certPath, ", key_path: " + k, t.certPath, ", key_path: " + l);
      Strip(", key_path: ", k, l);
      PathTextPrefixFree(p, s.keyPath, ", client_auth: " + a, t.keyPath, ", client_auth: " + b);
      Strip(", client_auth: ", a, b);
      StripEnd(" }", AuthText(p, s.clientAuth), AuthText(p, t.clientAuth));
      AuthTextInjective(p, s.clientAuth, t.clientAuth);
    }
  }

  lemma WorkersTextInjective(v: WorkerCount, w: WorkerCount)
    requires WorkersText(v) == WorkersText(w)
    ensures v == w
  {
    assert WorkersText(v)[0] == (if v.Auto? then 'A' else 'C') && WorkersText(w)[0] == (if w.Auto? then 'A' else 'C');
    if v.Count? {
      assert WorkersText(v) == "Count(" + (HistoryNames.Decimal(v.workers) + ")");
      assert WorkersText(w) == "Count(" + (HistoryNames.Decimal(w.workers) + ")");
      Strip("Count(", HistoryNames.Decimal(v.workers) + ")", HistoryNames.Decimal(w.workers) + ")");
      StripEnd(")", HistoryNames.Decimal(v.workers), HistoryNames.Decimal(w.workers));
      HistoryNames.DecimalInjective(v.workers, w.workers);
    }
  }

  lemma WorkersTextHasNoPipe(w: WorkerCount)
    ensures '|' !in WorkersText(w)
  {
    if w.Count? { HistoryNames.DecimalIsDigits(w.workers); }
  }

  /* ---- fingerprints ---- */

  /** A closed text cannot begin behind a pipe of another one: that pipe lies inside a literal, so the
      quotes behind it are odd in number, and in a closed text they are even. */
  lemma NoClosedTextBehindAPipe(x: string, inner: string)
    requires Closed(inner, Outside)
    ensures !Closed(x + ("|" + inner), Outside)
  {
    ScanConcat(x, "|" + inner, Outside);
    assert ("|" + inner)[0] == '|' && ("|" + inner)[1..] == inner;
    ScanFlips(inner, Outside);
  }

  lemma ClosedTextsAlign(x: string, a: string, y: string, b: string)
    requires Closed(a, Outside) && Closed(b, Outside) && x + "|" + a == y + "|" + b
    ensures |x| <= |y|
  {
    var whole := x + "|" + a;
    if |x| > |y| {
      var gap := whole[|y| + 1..|x|];
      NoClosedTextBehindAPipe(gap, a);
      BehindTheGap(x, a, y, b);
    }
  }

  lemma BehindTheGap(x: string, a: string, y: string, b: string)
    requires x + "|" + a == y + "|" + b && |x| > |y|
    ensures b == (x + "|" + a)[|y| + 1..|x|] + ("|" + a)
  {
    var whole := x + "|" + a;
    assert b == whole[|y| + 1..];
    assert "|" + a == whole[|x|..];
  }

  /** Comparing fingerprints compares listeners, whatever their names and paths contain. */
  lemma FingerprintIdentifiesListener(p: Printable, l: Listener, k: Listener)
    ensures Fingerprint(p, l) == Fingerprint(p, k) <==> l == k
  {
    if Fingerprint(p, l) == Fingerprint(p, k) {
      var x := l.name + "|" + l.address + "|" + WorkersText(l.workers);
      var y := k.name + "|" + k.address + "|" + WorkersText(k.workers);
      TlsTextIsClosed(p, l.tls);
      TlsTextIsClosed(p, k.tls);
      ClosedTextsAlign(x, TlsText(p, l.tls), y, TlsText(p, k.tls));
      ClosedTextsAlign(y, TlsText(p, k.tls), x, TlsText(p, l.tls));
      assert x == Fingerprint(p, l)[..|x|] == y;
      assert TlsText(p, l.tls) == Fingerprint(p, l)[|x| + 1..] == TlsText(p, k.tls);
      TlsTextInjective(p, l.tls, k.tls);
      WorkersTextHasNoPipe(l.workers);
      WorkersTextHasNoPipe(k.workers);
      LastMark('|', l.name + "|" + l.address, WorkersText(l.workers), k.name + "|" + k.address, WorkersText(k.workers));
      WorkersTextInjective(l.workers, k.workers);
      LastMark('|', l.name, l.address, k.name, k.address);
    }
  }

  lemma FingerprintsIdentifyListeners(p: Printable, ls: seq<Listener>, ks: seq<Listener>)
    ensures Fingerprints(p, ls) == Fingerprints(p, ks) <==> ls == ks
  {
    if Fingerprints(p, ls) == Fingerprints(p, ks) {
      assert |ls| == |Fingerprints(p, ls)| == |ks|;
      forall i | 0 <= i < |ls| ensures ls[i] == ks[i] {
        assert Fingerprints(p, ls)[i] == Fingerprint(p, ls[i]) && Fingerprints(p, ks)[i] == Fingerprint(p, ks[i]);
        FingerprintIdentifiesListener(p, ls[i], ks[i]);
      }
    }
  }

  /* ---- the other boot-time parts ---- */

  /** Admin interface and metrics: off, or at an address. */
  datatype Endpoint = NoEndpoint | Endpoint(addr: Address)

  datatype Shutdown = NoShutdown | Drain(timeoutMs: nat)

  datatype AccessLog = NoAccessLog | Stdout | LogFile(path: string)

  function EndpointText(e: Endpoint): string {
    match e
    case NoEndpoint => "Disabled"
    case Endpoint(addr) => "Enabled { addr: " + (addr + " }")
  }

  function ShutdownText(s: Shutdown): string {
    match s
    case NoShutdown => "Disabled"
    case Drain(ms) => "Enabled { drain_timeout: Duration(" + (HistoryNames.Decimal(ms) + ") }")
  }

  function AccessLogText(p: Printable, a: AccessLog): string {
    match a
    case NoAccessLog => "Disabled"
    case Stdout => "Stdout"
    case LogFile(path) => "File(" + (PathText(p, path) + ")")
  }

  lemma EndpointTextInjective(a: Endpoint, b: Endpoint)
    ensures EndpointText(a) == EndpointText(b) <==> a == b
  {
    if EndpointText(a) == EndpointText(b) {
      assert EndpointText(a)[0] == (if a.NoEndpoint? then 'D' else 'E');
      assert EndpointText(b)[0] == (if b.NoEndpoint? then 'D' else 'E');
      if a.Endpoint? {
        Strip("Enabled { addr: ", a.addr + " }", b.addr + " }");
        StripEnd(" }", a.addr, b.addr);
      }
    }
  }

  lemma ShutdownTextInjective(a: Shutdown, b: Shutdown)
    ensures ShutdownText(a) == ShutdownText(b) <==> a == b
  {
    if ShutdownText(a) == ShutdownText(b) {
      assert ShutdownText(a)[0] == (if a.NoShutdown? then 'D' else 'E');
      assert ShutdownText(b)[0] == (if b.NoShutdown? then 'D' else 'E');
      if a.Drain? {
        var m, n := HistoryNames.Decimal(a.timeoutMs), HistoryNames.Decimal(b.timeoutMs);
        Strip("Enabled { drain_timeout: Duration(", m + ") }", n + ") }");
        StripEnd(") }", m, n);
        HistoryNames.DecimalInjective(a.timeoutMs, b.timeoutMs);
      }
    }
  }

  lemma AccessLogTextInjective(p: Printable, a: AccessLog, b: AccessLog)
    ensures AccessLogText(p, a) == AccessLogText(p, b) <==> a == b
  {
    if AccessLogText(p, a) == AccessLogText(p, b) {
      assert AccessLogText(p, a)[0] == (if a.NoAccessLog? then 'D' else if a.Stdout? then 'S' else 'F');
      assert AccessLogText(p, b)[0] == (if b.NoAccessLog? then 'D' else if b.Stdout? then 'S' else 'F');
      if a.LogFile? {
        Strip("File(", PathText(p, a.path) + ")", PathText(p, b.path) + ")");
        PathTextPrefixFree(p, a.path, ")", b.path, ")");
      }
    }
  }
}
