/** Entity tags: how the relay prints them (pavis-relay, handlers.rs and storage/metadata.rs), how the
    agent reads them and sends them back (pavis, agent/driver.rs), and how the relay reads those.
    Header values are printable ASCII, as `HeaderValue::to_str` demands. */
module Etag {
  import opened Common

  const PREFIX := "sha256:"
  const HEX_LENGTH := 64
  const DIGEST_LENGTH := 32

  /* ---- characters ---- */

  predicate IsSpace(c: char) { c == ' ' || c == '\t' }

  predicate IsHexDigit(c: char) { '0' <= c <= '9' || 'a' <= c <= 'f' || 'A' <= c <= 'F' }

  predicate IsLowerHexDigit(c: char) { '0' <= c <= '9' || 'a' <= c <= 'f' }

  function LowerChar(c: char): char { if 'A' <= c <= 'Z' then (c as int + 32) as char else c }

  function Lower(s: string): (r: string)
    ensures |r| == |s| && forall i :: 0 <= i < |s| ==> r[i] == LowerChar(s[i])
  {
    if s == "" then "" else [LowerChar(s[0])] + Lower(s[1..])
  }

  predicate AllHexDigits(s: string) { forall i :: 0 <= i < |s| ==> IsHexDigit(s[i]) }

  predicate AllLowerHexDigits(s: string) { forall i :: 0 <= i < |s| ==> IsLowerHexDigit(s[i]) }

  function TrimStart(s: string): string { if s != "" && IsSpace(s[0]) then TrimStart(s[1..]) else s }

  function TrimEnd(s: string): string { if s != "" && IsSpace(s[|s| - 1]) then TrimEnd(s[..|s| - 1]) else s }

  function Trim(s: string): string { TrimEnd(TrimStart(s)) }

  predicate StartsWith(s: string, prefix: string) { prefix <= s }

  predicate Quoted(s: string) { |s| >= 2 && s[0] == '"' && s[|s| - 1] == '"' }

  predicate Weak(s: string) { StartsWith(s, "W/") || StartsWith(s, "w/") }

  /* ---- hexadecimal ---- */

  function HexDigit(n: nat): (c: char)
    requires n < 16
    ensures IsLowerHexDigit(c)
  {
    if n < 10 then (n + 48) as char else (n + 87) as char
  }

  function HexValue(c: char): (n: nat)
    requires IsLowerHexDigit(c)
    ensures n < 16
  {
    if c <= '9' then c as int - 48 else c as int - 87
  }

  function ByteHex(b: Byte): (s: string)
    ensures |s| == 2 && IsLowerHexDigit(s[0]) && IsLowerHexDigit(s[1])
  {
    var n: nat := b;
    [HexDigit(n / 16), HexDigit(n % 16)]
  }

  function ByteValue(c: char, d: char): Byte
    requires IsLowerHexDigit(c) && IsLowerHexDigit(d)
  {
    16 * HexValue(c) + HexValue(d)
  }

  lemma ByteRoundTrip(b: Byte)
    ensures ByteValue(ByteHex(b)[0], ByteHex(b)[1]) == b
  {
  }

  lemma DigitsRoundTrip(c: char, d: char)
    requires IsLowerHexDigit(c) && IsLowerHexDigit(d)
    ensures ByteHex(ByteValue(c, d)) == [c, d]
  {
    var n: nat := ByteValue(c, d);
    assert n / 16 == HexValue(c) && n % 16 == HexValue(d);
  }

  /** Two lower-case digits a byte. */
  function Hex(b: Bytes): string { if b == [] then "" else ByteHex(b[0]) + Hex(b[1..]) }

  function Unhex(s: string): Bytes
    requires AllLowerHexDigits(s) && |s| % 2 == 0
  {
    if s == "" then [] else [ByteValue(s[0], s[1])] + Unhex(s[2..])
  }

  lemma {:induction false} HexShape(b: Bytes)
    ensures |Hex(b)| == 2 * |b| && AllLowerHexDigits(Hex(b))
  {
    if b != [] { HexShape(b[1..]); }
  }

  lemma {:induction false} HexReads(b: Bytes)
    ensures |Hex(b)| == 2 * |b| && AllLowerHexDigits(Hex(b)) && Unhex(Hex(b)) == b
  {
    HexShape(b);
    if b != [] {
      HexReads(b[1..]);
      ByteRoundTrip(b[0]);
      assert Hex(b)[2..] == Hex(b[1..]);
      assert b == [b[0]] + b[1..];
    }
  }

  lemma {:induction false} HexWrites(s: string)
    requires AllLowerHexDigits(s) && |s| % 2 == 0
    ensures 2 * |Unhex(s)| == |s| && Hex(Unhex(s)) == s
  {
    if s != "" {
      HexWrites(s[2..]);
      DigitsRoundTrip(s[0], s[1]);
      var b := Unhex(s);
      assert b[1..] == Unhex(s[2..]);
      assert s == [s[0], s[1]] + s[2..];
    }
  }

  lemma DigitOf(n: nat)
    requires n < 16
    ensures HexDigit(n) == "0123456789abcdef"[n]
  {
  }

  /** The digits themselves: high half first, in lower case. */
  lemma {:induction false} HexDigits(b: Bytes, i: nat)
    requires i < |b|
    ensures var high: nat, low: nat := b[i] / 16, b[i] % 16;
            && |Hex(b)| == 2 * |b|
            && high < 16 && Hex(b)[2 * i] == "0123456789abcdef"[high]
            && low < 16 && Hex(b)[2 * i + 1] == "0123456789abcdef"[low]
  {
    HexShape(b);
    var x, xs: string := ByteHex(b[0]), Hex(b[1..]);
    assert Hex(b) == x + xs;
    if i == 0 {
      DigitOf(b[0] / 16);
      DigitOf(b[0] % 16);
    } else {
      HexDigits(b[1..], i - 1);
      assert (x + xs)[2 * i] == xs[2 * (i - 1)] && (x + xs)[2 * i + 1] == xs[2 * (i - 1) + 1];
    }
  }

  lemma HexCons(b: Byte, c: Bytes)
    ensures Hex([b] + c) == ByteHex(b) + Hex(c)
  {
    assert ([b] + c)[1..] == c;
  }

  lemma {:induction false} HexAppend(b: Bytes, c: Bytes)
    ensures Hex(b + c) == Hex(b) + Hex(c)
  {
    if b == [] {
      assert b + c == c;
    } else {
      var x, xs := b[0], b[1..];
      calc {
        Hex(b + c);
        { assert b + c == [x] + (xs + c); HexCons(x, xs + c); }
        ByteHex(x) + Hex(xs + c);
        { HexAppend(xs, c); }
        ByteHex(x) + (Hex(xs) + Hex(c));
        (ByteHex(x) + Hex(xs)) + Hex(c);
        { assert b == [x] + xs; HexCons(x, xs); }
        Hex(b) + Hex(c);
      }
    }
  }

  /* ---- the two sides ---- */

  /** The label of a digest: `checksum_for_bytes`, the same in the relay and in the agent. */
  function Label(digest: Bytes): string { PREFIX + Hex(digest) }

  method ChecksumForBytes(digest: Bytes) returns (out: string)
    ensures out == Label(digest)
  {
    out := PREFIX;
    for i := 0 to |digest|
      invariant out == Label(digest[..i])
    {
      HexAppend(digest[..i], [digest[i]]);
      assert digest[..i + 1] == digest[..i] + [digest[i]];
      assert Hex([digest[i]]) == ByteHex(digest[i]) + Hex([]);
      out := out + ByteHex(digest[i]);
    }
    assert digest[..|digest|] == digest;
  }

  function EtagFromChecksum(checksum: string): string {
    if StartsWith(Lower(checksum), PREFIX) then Lower(checksum) else PREFIX + Lower(checksum)
  }

  function Quote(etag: string): string { "\"" + etag + "\"" }

  /** The part both readers share: the prefix, then 64 hexadecimal digits, lower-cased. */
  function ParseLabel(unquoted: string): Option<string> {
    if !StartsWith(unquoted, PREFIX) then None
    else
      var hex := unquoted[|PREFIX|..];
      if |hex| != HEX_LENGTH || !AllHexDigits(hex) then None else Some(PREFIX + Lower(hex))
  }

  /** The relay's reading of `If-None-Match`; no tag means an unconditional request. */
  function ParseIfNoneMatch(header: Option<string>): Option<string> {
    if header.None? then None
    else
      var s := Trim(header.value);
      if s == "*" || Weak(s) || ',' in s || !Quoted(s) then None
      else if '"' in s[1..|s| - 1] then None
      else ParseLabel(s[1..|s| - 1])
  }

  /** The agent's reading of the `ETag` header of a response. */
  function ParseEtagHeader(value: string): Option<string> {
    var s := Trim(value);
    if Weak(s) then None else ParseLabel(if Quoted(s) then s[1..|s| - 1] else s)
  }

  /* ---- what the readers accept ---- */

  /** The prefix and a digest in hexadecimal, in any mixture of cases. */
  ghost predicate Writes(u: string, digest: Bytes) {
    && |u| == |PREFIX| + HEX_LENGTH && u[..|PREFIX|] == PREFIX
    && AllHexDigits(u[|PREFIX|..]) && Lower(u[|PREFIX|..]) == Hex(digest)
  }

  lemma LabelReads(u: string, digest: Bytes)
    requires |digest| == DIGEST_LENGTH
    ensures ParseLabel(u) == Some(Label(digest)) <==> Writes(u, digest)
  {
    HexShape(digest);
    if ParseLabel(u) == Some(Label(digest)) {
      var hex := u[|PREFIX|..];
      assert (PREFIX + Lower(hex))[|PREFIX|..] == Lower(hex) && Label(digest)[|PREFIX|..] == Hex(digest);
    }
  }

  lemma LabelNamesADigest(u: string)
    requires ParseLabel(u).Some?
    ensures exists d: Bytes :: |d| == DIGEST_LENGTH && ParseLabel(u) == Some(Label(d))
  {
    var h := Lower(u[|PREFIX|..]);
    assert AllLowerHexDigits(h);
    HexWrites(h);
    assert ParseLabel(u) == Some(Label(Unhex(h)));
  }

  lemma LabelHasNoMarks(u: string, digest: Bytes)
    requires Writes(u, digest)
    ensures ',' !in u && '"' !in u && !Quoted(u) && !Weak(u)
  {
    assert u == PREFIX + u[|PREFIX|..];
    assert u[0] == 's';
    forall i | 0 <= i < |u| ensures u[i] != ',' && u[i] != '"' {
      if i >= |PREFIX| { assert IsHexDigit(u[|PREFIX|..][i - |PREFIX|]); }
    }
  }

  lemma Unquote(u: string)
    ensures Quoted(Quote(u)) && Quote(u)[1..|Quote(u)| - 1] == u && !Weak(Quote(u)) && Quote(u) != "*"
  {
    assert Quote(u)[0] == '"';
  }

  lemma Requote(s: string)
    requires Quoted(s)
    ensures s == Quote(s[1..|s| - 1])
  {
  }

  lemma QuotingAddsNoComma(u: string)
    requires ',' !in u
    ensures ',' !in Quote(u)
  {
  }

  /** The relay reads a header as the tag of a digest exactly when, spaces apart, it is one quoted
      `sha256:` label of that digest, in any case. */
  lemma RelayReads(value: string, digest: Bytes)
    requires |digest| == DIGEST_LENGTH
    ensures ParseIfNoneMatch(Some(value)) == Some(Label(digest)) <==>
            exists u :: Trim(value) == Quote(u) && Writes(u, digest)
  {
    var s := Trim(value);
    if ParseIfNoneMatch(Some(value)) == Some(Label(digest)) {
      Requote(s);
      LabelReads(s[1..|s| - 1], digest);
    }
    if u :| Trim(value) == Quote(u) && Writes(u, digest) {
      Unquote(u);
      LabelReads(u, digest);
      LabelHasNoMarks(u, digest);
      QuotingAddsNoComma(u);
    }
  }

  /** Everything else is an unconditional request: a tag the relay reads is always some digest's. */
  lemma RelayReadsOnlyDigests(value: string)
    ensures ParseIfNoneMatch(Some(value)).Some? ==>
            exists d: Bytes :: |d| == DIGEST_LENGTH && ParseIfNoneMatch(Some(value)) == Some(Label(d))
  {
    var s := Trim(value);
    if ParseIfNoneMatch(Some(value)).Some? { LabelNamesADigest(s[1..|s| - 1]); }
  }

  /** The agent also takes the label without quotes, and nothing else the relay would not. */
  lemma AgentReads(value: string, digest: Bytes)
    requires |digest| == DIGEST_LENGTH
    ensures ParseEtagHeader(value) == Some(Label(digest)) <==>
            Writes(Trim(value), digest) || exists u :: Trim(value) == Quote(u) && Writes(u, digest)
  {
    var s := Trim(value);
    if ParseEtagHeader(value) == Some(Label(digest)) {
      if Quoted(s) {
        Requote(s);
        LabelReads(s[1..|s| - 1], digest);
      } else {
        LabelReads(s, digest);
      }
    }
    if Writes(s, digest) {
      LabelHasNoMarks(s, digest);
      LabelReads(s, digest);
    }
    if u :| Trim(value) == Quote(u) && Writes(u, digest) {
      Unquote(u);
      LabelReads(u, digest);
    }
  }

  /** Equal labels are equal digests, so comparing tags compares contents up to the hash. */
  lemma LabelsIdentifyDigests(a: Bytes, b: Bytes)
    ensures Label(a) == Label(b) <==> a == b
  {
    if Label(a) == Label(b) {
      assert Label(a)[|PREFIX|..] == Hex(a) && Label(b)[|PREFIX|..] == Hex(b);
      HexReads(a);
      HexReads(b);
    }
  }

  lemma {:induction false} LowerFixesHex(s: string)
    requires AllLowerHexDigits(s)
    ensures Lower(s) == s
  {
    assert forall i :: 0 <= i < |s| ==> LowerChar(s[i]) == s[i];
  }

  lemma LabelIsLower(digest: Bytes)
    ensures Lower(Label(digest)) == Label(digest) && EtagFromChecksum(Label(digest)) == Label(digest)
  {
    HexShape(digest);
    var s := Label(digest);
    assert forall i :: 0 <= i < |s| ==> LowerChar(s[i]) == s[i];
    assert Lower(s) == s;
  }

  /** A checksum stored without its prefix, in any case, makes the same tag. */
  lemma BareChecksumGetsThePrefix(checksum: string, digest: Bytes)
    requires Lower(checksum) == Hex(digest)
    ensures EtagFromChecksum(checksum) == Label(digest)
  {
    HexShape(digest);
    assert Hex(digest) != "" ==> Hex(digest)[0] != PREFIX[0];
  }

  lemma LabelWritesItself(digest: Bytes)
    requires |digest| == DIGEST_LENGTH
    ensures Writes(Label(digest), digest)
  {
    HexShape(digest);
    LowerFixesHex(Hex(digest));
    assert Label(digest)[|PREFIX|..] == Hex(digest);
  }

  lemma {:induction false} TrimStartMeaning(s: string) returns (before: string)
    ensures s == before + TrimStart(s) && (forall c | c in before :: c == ' ' || c == '\t')
    ensures TrimStart(s) != "" ==> TrimStart(s)[0] !in " \t"
  {
    if s != "" && IsSpace(s[0]) {
      var rest := TrimStartMeaning(s[1..]);
      before := [s[0]] + rest;
    } else {
      before := "";
    }
  }

  lemma {:induction false} TrimEndMeaning(s: string) returns (after: string)
    ensures s == TrimEnd(s) + after && (forall c | c in after :: c == ' ' || c == '\t')
    ensures TrimEnd(s) != "" ==> TrimEnd(s)[|TrimEnd(s)| - 1] !in " \t" && TrimEnd(s)[0] == s[0]
  {
    if s != "" && IsSpace(s[|s| - 1]) {
      var rest := TrimEndMeaning(s[..|s| - 1]);
      after := rest + [s[|s| - 1]];
    } else {
      after := "";
    }
  }

  /** Trimming takes away exactly the spaces and tabs at both ends. */
  lemma TrimMeaning(s: string) returns (before: string, after: string)
    ensures s == before + Trim(s) + after && forall c | c in before + after :: c == ' ' || c == '\t'
    ensures Trim(s) != "" ==> Trim(s)[0] !in " \t" && Trim(s)[|Trim(s)| - 1] !in " \t"
  {
    before := TrimStartMeaning(s);
    after := TrimEndMeaning(TrimStart(s));
  }

  lemma TrimKeeps(s: string)
    requires s != "" && !IsSpace(s[0]) && !IsSpace(s[|s| - 1])
    ensures Trim(s) == s
  {
  }

  /** The whole circuit. The relay labels an artifact, the agent reads the header as its own label of
      the same bytes, and sends it back; the relay reads that as its current tag exactly when the
      artifact it now holds has the same digest. */
  lemma TagsTravel(served: Bytes, current: Bytes)
    requires |served| == DIGEST_LENGTH && |current| == DIGEST_LENGTH
    ensures ParseEtagHeader(Quote(EtagFromChecksum(Label(served)))) == Some(Label(served))
    ensures ParseIfNoneMatch(Some(Quote(Label(served)))) == Some(Label(served))
    ensures ParseIfNoneMatch(Some(Quote(Label(served)))) == Some(EtagFromChecksum(Label(current)))
       <==> served == current
  {
    LabelIsLower(served);
    LabelIsLower(current);
    HexShape(served);
    LabelWritesItself(served);
    TrimKeeps(Quote(Label(served)));
    RelayReads(Quote(Label(served)), served);
    AgentReads(Quote(Label(served)), served);
    LabelsIdentifyDigests(served, current);
  }

  /** Where the two readers part: a bare label is a tag to the agent and no tag to the relay. */
  lemma BareLabelIsOnlyForTheAgent(digest: Bytes)
    requires |digest| == DIGEST_LENGTH
    ensures ParseEtagHeader(Label(digest)) == Some(Label(digest)) && ParseIfNoneMatch(Some(Label(digest))).None?
  {
    HexShape(digest);
    LabelWritesItself(digest);
    TrimKeeps(Label(digest));
    AgentReads(Label(digest), digest);
    LabelHasNoMarks(Label(digest), digest);
  }
}
