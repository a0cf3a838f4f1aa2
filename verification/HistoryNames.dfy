/** The names of history files and the directory scan (pavis-relay, storage/history.rs). */
module HistoryNames {
  import opened Common
  import opened RelayStorage

  const VERSION_WIDTH := 10
  const ARTIFACT_SUFFIX := ".pvs"
  const METADATA_SUFFIX := ".meta.json"
  const TEMP_SUFFIX := ".tmp"

  function Pow10(k: nat): (p: nat)
    ensures p >= 1
  {
    if k == 0 then 1 else 10 * Pow10(k - 1)
  }

  predicate IsDigit(c: char) { '0' <= c <= '9' }

  predicate AllDigits(s: string) { forall i :: 0 <= i < |s| ==> IsDigit(s[i]) }

  function DigitChar(d: nat): (c: char)
    requires d < 10
  {
    (d + 48) as char
  }

  function DigitValue(c: char): nat
    requires IsDigit(c)
  {
    c as int - 48
  }

  /** Decimal notation without padding. */
  function Decimal(v: nat): string {
    if v < 10 then [DigitChar(v)] else Decimal(v / 10) + [DigitChar(v % 10)]
  }

  function Zeros(n: nat): string { seq(n, i => '0') }

  /** Zero-padded to ten places; wider numbers are not cut. */
  function Padded(v: nat): string {
    if |Decimal(v)| < VERSION_WIDTH then Zeros(VERSION_WIDTH - |Decimal(v)|) + Decimal(v) else Decimal(v)
  }

  function ArtifactName(v: nat): string { Padded(v) + ARTIFACT_SUFFIX }

  function MetadataName(v: nat): string { Padded(v) + METADATA_SUFFIX }

  function Value(s: string): nat
    requires AllDigits(s)
  {
    if s == "" then 0 else 10 * Value(s[..|s| - 1]) + DigitValue(s[|s| - 1])
  }

  function ParseVersion(name: string, suffix: string): Option<nat> {
    if !EndsWith(name, suffix) then None
    else
      var stem := name[..|name| - |suffix|];
      if |stem| != VERSION_WIDTH || !AllDigits(stem) then None else Some(Value(stem))
  }

  /* ---- fixed-width decimal ---- */

  function Fixed(v: nat, k: nat): string {
    if k == 0 then "" else Fixed(v / 10, k - 1) + [DigitChar(v % 10)]
  }

  lemma {:induction false} FixedReads(v: nat, k: nat)
    requires v < Pow10(k)
    ensures |Fixed(v, k)| == k && AllDigits(Fixed(v, k)) && Value(Fixed(v, k)) == v
  {
    if k > 0 {
      FixedReads(v / 10, k - 1);
      var s := Fixed(v, k);
      assert s[..|s| - 1] == Fixed(v / 10, k - 1);
    }
  }

  lemma {:induction false} FixedWrites(s: string)
    requires AllDigits(s)
    ensures Value(s) < Pow10(|s|) && Fixed(Value(s), |s|) == s
  {
    if s != "" {
      var n := |s| - 1;
      FixedWrites(s[..n]);
      assert Value(s) / 10 == Value(s[..n]) && Value(s) % 10 == DigitValue(s[n]);
      assert s == s[..n] + [s[n]];
    }
  }

  lemma {:induction false} DecimalPads(v: nat, k: nat)
    requires k > 0
    ensures |Decimal(v)| <= k <==> v < Pow10(k)
    ensures v < Pow10(k) ==> Zeros(k - |Decimal(v)|) + Decimal(v) == Fixed(v, k)
  {
    if k == 1 {
      if v < 10 {
        assert Fixed(v / 10, 0) == "";
        assert Zeros(0) == "";
      } else {
        DecimalNonEmpty(v / 10);
      }
    } else if v < 10 {
      FixedZero(k - 1);
      assert Pow10(k) >= 10;
      assert Zeros(k - 1) + [DigitChar(v)] == Fixed(v, k);
    } else {
      DecimalPads(v / 10, k - 1);
      if v < Pow10(k) {
        var d := Decimal(v / 10);
        assert Zeros(k - |Decimal(v)|) + Decimal(v) == (Zeros(k - 1 - |d|) + d) + [DigitChar(v % 10)];
      }
    }
  }

  lemma DecimalNonEmpty(v: nat)
    ensures |Decimal(v)| >= 1
  {
  }

  lemma {:induction false} FixedZero(k: nat)
    ensures Fixed(0, k) == Zeros(k)
  {
    if k > 0 {
      FixedZero(k - 1);
      assert Zeros(k) == Zeros(k - 1) + ['0'];
    }
  }

  lemma {:induction false} DecimalIsDigits(v: nat)
    ensures AllDigits(Decimal(v))
  {
    if v >= 10 { DecimalIsDigits(v / 10); }
  }

  lemma {:induction false} DecimalInjective(v: nat, w: nat)
    requires Decimal(v) == Decimal(w)
    ensures v == w
  {
    DecimalReads(v);
    DecimalReads(w);
  }

  lemma {:induction false} DecimalReads(v: nat)
    ensures AllDigits(Decimal(v)) && Value(Decimal(v)) == v
  {
    DecimalIsDigits(v);
    var s := Decimal(v);
    if v >= 10 {
      DecimalReads(v / 10);
      assert s[..|s| - 1] == Decimal(v / 10);
    } else {
      assert s[..0] == "";
    }
  }

  /** The ten-place name of a version, and which versions have one. */
  lemma PaddedIsFixed(v: nat)
    ensures |Padded(v)| == VERSION_WIDTH <==> v < Pow10(VERSION_WIDTH)
    ensures v < Pow10(VERSION_WIDTH) ==> Padded(v) == Fixed(v, VERSION_WIDTH)
  {
    DecimalPads(v, VERSION_WIDTH);
    if v < Pow10(VERSION_WIDTH) {
      FixedReads(v, VERSION_WIDTH);
      if |Decimal(v)| == VERSION_WIDTH { assert Zeros(0) + Decimal(v) == Decimal(v); }
    }
  }

  /** Parsing and naming are inverse: a name parses to a version exactly when it is the name written
      for that version, and versions of more than ten digits are never read back. */
  lemma ParseUndoesName(name: string, suffix: string, v: nat)
    ensures ParseVersion(name, suffix) == Some(v) <==> v < Pow10(VERSION_WIDTH) && name == Padded(v) + suffix
  {
    PaddedIsFixed(v);
    if v < Pow10(VERSION_WIDTH) && name == Padded(v) + suffix {
      FixedReads(v, VERSION_WIDTH);
      assert name[..|name| - |suffix|] == Padded(v) && name[|name| - |suffix|..] == suffix;
    }
    if ParseVersion(name, suffix) == Some(v) {
      var stem := name[..|name| - |suffix|];
      FixedWrites(stem);
      assert name == stem + suffix;
    }
  }

  lemma TenDigits()
    ensures Pow10(10) == 10_000_000_000
  {
    assert Pow10(5) == 100_000;
  }

  /** A name read back: ten decimal digits before the suffix, the last one counting ones, the one before it tens. */
  lemma NameDigits(v: nat, i: nat)
    requires v < 10_000_000_000 && i < 10
    ensures |ArtifactName(v)| == 14 && ArtifactName(v)[10..] == ".pvs"
    ensures |MetadataName(v)| == 20 && MetadataName(v)[10..] == ".meta.json"
    ensures ArtifactName(v)[i] == MetadataName(v)[i] && ArtifactName(v)[i] as int == 48 + v / Pow10(9 - i) % 10
  {
    TenDigits();
    PaddedIsFixed(v);
    FixedDigit(v, 10, i);
    NamePartsOf(Padded(v), ".pvs", i);
    NamePartsOf(Padded(v), ".meta.json", i);
  }

  lemma NamePartsOf(stem: string, suffix: string, i: nat)
    requires i < |stem|
    ensures (stem + suffix)[i] == stem[i] && (stem + suffix)[|stem|..] == suffix
  {
  }

  lemma {:induction false} FixedDigit(v: nat, k: nat, i: nat)
    requires i < k
    ensures |Fixed(v, k)| == k && Fixed(v, k)[i] as int == 48 + v / Pow10(k - 1 - i) % 10
  {
    FixedLength(v / 10, k - 1);
    if i < k - 1 {
      FixedDigit(v / 10, k - 1, i);
      DivTen(v, Pow10(k - 2 - i));
    }
  }

  lemma {:induction false} FixedLength(v: nat, k: nat)
    ensures |Fixed(v, k)| == k
  {
    if k > 0 { FixedLength(v / 10, k - 1); }
  }

  lemma DivTen(v: nat, p: nat)
    requires p >= 1
    ensures v / 10 / p == v / (10 * p)
  {
    var q := v / 10 / p;
    var r, s := v % 10, v / 10 % p;
    assert v == 10 * (p * q + s) + r;
    assert v == (10 * p) * q + (10 * s + r) && 0 <= 10 * s + r < 10 * p;
    QuotientIs(v, 10 * p, q, 10 * s + r);
  }

  lemma QuotientIs(v: nat, d: nat, q: nat, r: nat)
    requires d > 0 && v == d * q + r && r < d
    ensures v / d == q
  {
    var e := v / d - q;
    assert d * (v / d) == d * q + d * e;
    assert 0 < d * e + d < 2 * d;
    MultipleOutside(d, e);
  }

  lemma MultipleOutside(d: nat, e: int)
    ensures e >= 1 ==> d * e >= d
    ensures e <= -1 ==> d * e + d <= 0
  {
    if e >= 1 { assert d * e == d + d * (e - 1); }
    if e <= -1 { assert d * e + d == d * (e + 1); }
  }

  /** The three kinds of files in the history directory are never taken for one another. */
  lemma KindsAreDisjoint(v: nat, w: nat)
    ensures ArtifactName(v) != MetadataName(w)
    ensures ParseVersion(MetadataName(v), ARTIFACT_SUFFIX).None? && ParseVersion(ArtifactName(v), METADATA_SUFFIX).None?
    ensures ParseVersion(ArtifactName(v) + TEMP_SUFFIX, ARTIFACT_SUFFIX).None?
    ensures ParseVersion(ArtifactName(v) + TEMP_SUFFIX, METADATA_SUFFIX).None?
    ensures ParseVersion(MetadataName(v) + TEMP_SUFFIX, ARTIFACT_SUFFIX).None?
    ensures ParseVersion(MetadataName(v) + TEMP_SUFFIX, METADATA_SUFFIX).None?
  {
    LastChar(Padded(v), ARTIFACT_SUFFIX);
    LastChar(Padded(w), METADATA_SUFFIX);
    LastChar(Padded(v), METADATA_SUFFIX);
    LastChar(ArtifactName(v), TEMP_SUFFIX);
    LastChar(MetadataName(v), TEMP_SUFFIX);
    EndsWithLast(MetadataName(v), ARTIFACT_SUFFIX);
    EndsWithLast(ArtifactName(v), METADATA_SUFFIX);
    EndsWithLast(ArtifactName(v) + TEMP_SUFFIX, ARTIFACT_SUFFIX);
    EndsWithLast(ArtifactName(v) + TEMP_SUFFIX, METADATA_SUFFIX);
    EndsWithLast(MetadataName(v) + TEMP_SUFFIX, ARTIFACT_SUFFIX);
    EndsWithLast(MetadataName(v) + TEMP_SUFFIX, METADATA_SUFFIX);
  }

  lemma LastChar(s: string, t: string)
    requires t != ""
    ensures (s + t)[|s + t| - 1] == t[|t| - 1]
  {
  }

  lemma EndsWithLast(name: string, suffix: string)
    requires suffix != "" && name != ""
    ensures EndsWith(name, suffix) ==> name[|name| - 1] == suffix[|suffix| - 1]
  {
    if EndsWith(name, suffix) {
      assert name[|name| - |suffix|..][|suffix| - 1] == name[|name| - 1];
    }
  }

  /* ---- the scan ---- */

  /** The versions below 10^10 whose name with this suffix is in the directory. */
  ghost predicate Names(names: seq<string>, suffix: string, v: nat) {
    v < Pow10(VERSION_WIDTH) && Padded(v) + suffix in names
  }

  /** `scan_history_sets` over a directory listing in any order. */
  method ScanHistory(names: seq<string>) returns (artifacts: set<nat>, metadata: set<nat>)
    ensures forall v :: v in artifacts <==> Names(names, ARTIFACT_SUFFIX, v)
    ensures forall v :: v in metadata <==> Names(names, METADATA_SUFFIX, v)
  {
    artifacts, metadata := {}, {};
    for i := 0 to |names|
      invariant forall v :: v in artifacts <==> Names(names[..i], ARTIFACT_SUFFIX, v)
      invariant forall v :: v in metadata <==> Names(names[..i], METADATA_SUFFIX, v)
    {
      var artifact := ParseVersion(names[i], ARTIFACT_SUFFIX);
      var meta := ParseVersion(names[i], METADATA_SUFFIX);
      NamesExtend(names, i, ARTIFACT_SUFFIX);
      NamesExtend(names, i, METADATA_SUFFIX);
      if artifact.Some? {
        OneKind(names[i]);
        artifacts := artifacts + {artifact.value};
      } else if meta.Some? {
        metadata := metadata + {meta.value};
      }
    }
    assert names[..|names|] == names;
  }

  lemma NamesExtend(names: seq<string>, i: nat, suffix: string)
    requires i < |names|
    ensures forall v: nat :: Names(names[..i + 1], suffix, v) <==>
                        Names(names[..i], suffix, v) || ParseVersion(names[i], suffix) == Some(v)
  {
    assert names[..i + 1] == names[..i] + [names[i]];
    forall v: nat
      ensures Names(names[..i + 1], suffix, v) <==>
              Names(names[..i], suffix, v) || ParseVersion(names[i], suffix) == Some(v)
    {
      ParseUndoesName(names[i], suffix, v);
    }
  }

  lemma OneKind(name: string)
    ensures ParseVersion(name, ARTIFACT_SUFFIX).None? || ParseVersion(name, METADATA_SUFFIX).None?
  {
    if name != "" {
      EndsWithLast(name, ARTIFACT_SUFFIX);
      EndsWithLast(name, METADATA_SUFFIX);
    }
  }

  ghost predicate StrictlyAscending(s: seq<nat>) { forall i, j :: 0 <= i < j < |s| ==> s[i] < s[j] }

  /** The elements of a set in ascending order. */
  method Ascending(s: set<nat>) returns (r: seq<nat>)
    ensures StrictlyAscending(r)
    ensures forall v :: v in r <==> v in s
  {
    r := [];
    var left := s;
    while left != {}
      invariant left <= s
      invariant StrictlyAscending(r)
      invariant forall v :: v in r <==> v in s && v !in left
      decreases left
    {
      var v :| v in left;
      var k := 0;
      while k < |r| && r[k] < v
        invariant 0 <= k <= |r| && forall j :: 0 <= j < k ==> r[j] < v
      {
        k := k + 1;
      }
      assert k < |r| ==> r[k] != v;
      InsertMembers(r, k, v);
      r := r[..k] + [v] + r[k..];
      left := left - {v};
    }
  }

  lemma InsertMembers(r: seq<nat>, k: nat, v: nat)
    requires k <= |r|
    ensures forall u :: u in r[..k] + [v] + r[k..] <==> u == v || u in r
  {
    assert r == r[..k] + r[k..];
  }

  /** `list_history_versions`: in ascending order and once each, the versions with both files. */
  method ListHistoryVersions(names: seq<string>) returns (versions: seq<nat>)
    ensures StrictlyAscending(versions)
    ensures forall v :: v in versions <==> Names(names, ARTIFACT_SUFFIX, v) && Names(names, METADATA_SUFFIX, v)
  {
    var artifacts, metadata := ScanHistory(names);
    versions := Ascending(artifacts * metadata);
  }

  /** `find_corrupt_versions`: the versions with one file of the two. */
  method FindCorruptVersions(names: seq<string>) returns (versions: seq<nat>)
    ensures StrictlyAscending(versions)
    ensures forall v :: v in versions <==> (Names(names, ARTIFACT_SUFFIX, v) <==> !Names(names, METADATA_SUFFIX, v))
  {
    var artifacts, metadata := ScanHistory(names);
    versions := Ascending((artifacts - metadata) + (metadata - artifacts));
  }

  /** `find_orphaned_versions`: the listed versions above the current one, still in order. */
  method FindOrphanedVersions(names: seq<string>, current: nat) returns (orphans: seq<nat>)
    ensures StrictlyAscending(orphans)
    ensures forall v :: v in orphans <==>
              v > current && Names(names, ARTIFACT_SUFFIX, v) && Names(names, METADATA_SUFFIX, v)
  {
    var versions := ListHistoryVersions(names);
    orphans := [];
    for i := 0 to |versions|
      invariant StrictlyAscending(orphans)
      invariant forall v :: v in orphans <==> v in versions[..i] && v > current
    {
      assert versions[..i + 1] == versions[..i] + [versions[i]];
      forall j | 0 <= j < |orphans| ensures orphans[j] < versions[i] { assert orphans[j] in orphans; }
      if versions[i] > current { orphans := orphans + [versions[i]]; }
    }
    assert versions[..|versions|] == versions;
  }

  /* ---- the scan and the storage model ---- */

  /** The directory as `RelayStorage` abstracts it: the two files of each version under their names,
      and beside them only files that are neither, such as left-over temporary ones. */
  ghost predicate Holds(names: seq<string>, d: Disk) {
    && (forall v :: v in d.artifacts <==> ArtifactName(v) in names)
    && (forall v :: v in d.metadata <==> MetadataName(v) in names)
  }

  /** The scan of such a directory reports the storage model's versions, halves and orphans, except
      those past ten digits, which it does not see. */
  lemma ScanSeesTheDisk(names: seq<string>, d: Disk, v: nat)
    requires Holds(names, d)
    ensures Names(names, ARTIFACT_SUFFIX, v) && Names(names, METADATA_SUFFIX, v) <==>
            v in Listed(d) && v < Pow10(VERSION_WIDTH)
    ensures (Names(names, ARTIFACT_SUFFIX, v) <==> !Names(names, METADATA_SUFFIX, v)) <==>
            v in Halves(d) && v < Pow10(VERSION_WIDTH)
    ensures v > DurableVersion(d) && Names(names, ARTIFACT_SUFFIX, v) && Names(names, METADATA_SUFFIX, v) <==>
            v in Orphans(d) && v < Pow10(VERSION_WIDTH)
  {
    assert ArtifactName(v) in names <==> v in d.artifacts;
    assert MetadataName(v) in names <==> v in d.metadata;
  }
}
