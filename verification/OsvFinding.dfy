/** Turning one advisory record into a finding for one component. */
module OsvFinding {
  import opened Common
  import opened OsvTypes
  import opened Decimal
  import opened Text

  // ----- Severity --------------------------------------------------------------------------------

  /** The band a base score falls in; none outside the scale or below its lowest band. */
  function CvssScoreToSeverity(score: real): Option<Severity> {
    if score < 0.0 || score > 10.0 then None
    else if score >= 9.0 then Some(Critical)
    else if score >= 7.0 then Some(High)
    else if score >= 4.0 then Some(Medium)
    else if score >= 0.1 then Some(Low)
    else None
  }

  /** Each tier is reached exactly from its threshold on, and only scores on the scale have a tier. */
  lemma BandsExact(score: real, rank: nat)
    requires rank <= 3
    ensures CvssScoreToSeverity(score).Some? && CvssScoreToSeverity(score).value.Rank() >= rank
            <==> [0.1, 4.0, 7.0, 9.0][rank] <= score <= 10.0
  {
    var thresholds := [0.1, 4.0, 7.0, 9.0];
    assert thresholds[0] == 0.1 && thresholds[1] == 4.0 && thresholds[2] == 7.0 && thresholds[3] == 9.0;
  }

  function LeadingNumeric(s: string): string {
    if s == [] || !(IsDigit(s[0]) || s[0] == '.') then [] else [s[0]] + LeadingNumeric(s[1..])
  }

  function Pow10(n: nat): (p: real)
    ensures p >= 1.0
  {
    if n == 0 then 1.0 else 10.0 * Pow10(n - 1)
  }

  function DotIndex(s: string): (i: nat)
    ensures i <= |s| && (i < |s| ==> s[i] == '.') && forall j :: 0 <= j < i ==> s[j] != '.'
  {
    if s == [] || s[0] == '.' then 0 else 1 + DotIndex(s[1..])
  }

  function DecimalValue(whole: string, fraction: string): real
    requires AllDigits(whole) && AllDigits(fraction)
  {
    Value(whole) as real + Value(fraction) as real / Pow10(|fraction|)
  }

  /** A plain decimal number: digits with at most one point and at least one digit. */
  function ParseDecimal(s: string): Option<real> {
    var dot := DotIndex(s);
    var whole, fraction := s[..dot], if dot < |s| then s[dot + 1..] else [];
    if |whole| + |fraction| == 0 || !AllDigits(whole) || !AllDigits(fraction) then None
    else Some(DecimalValue(whole, fraction))
  }

  function LabelToSeverity(text: string): Option<Severity> {
    var trimmed := Trim(text);
    if trimmed == [] then None
    else
      var score := ParseDecimal(LeadingNumeric(trimmed));
      if score.Some? && CvssScoreToSeverity(score.value).Some? then CvssScoreToSeverity(score.value)
      else match Lower(trimmed)
        case "critical" => Some(Critical)
        case "high" => Some(High)
        case "medium" => Some(Medium)
        case "moderate" => Some(Medium)
        case "low" => Some(Low)
        case _ => None
  }

  predicate IsInformationalClass(s: string) {
    Lower(Trim(s)) in ["unmaintained", "unsound", "notice"]
  }

  /** The CVSS vector scorer and the timestamp parser. */
  datatype Library = Library(baseScore: string -> Option<real>, timestamp: string -> Option<string>)

  function FirstScore(lib: Library, scores: seq<Option<string>>): Option<real> {
    if scores == [] then None
    else if scores[0].Some? && lib.baseScore(scores[0].value).Some? then lib.baseScore(scores[0].value)
    else FirstScore(lib, scores[1..])
  }

  // ----- Affected packages -----------------------------------------------------------------------

  /** A label without what a colon adds to it. */
  function BeforeColon(s: string): (r: string)
    ensures ':' !in r && r <= s && (r == s || s[|r|] == ':')
  {
    if s == [] || s[0] == ':' then [] else [s[0]] + BeforeColon(s[1..])
  }

  predicate Matches(c: Component, a: Affected) {
    && a.package.Some?
    && a.package.value.name.Some? && SameIgnoringCase(a.package.value.name.value, c.name)
    && a.package.value.ecosystem.Some? && BeforeColon(a.package.value.ecosystem.value) == c.eco
  }

  function Matching(c: Component, affected: seq<Affected>): (r: seq<Affected>)
    ensures forall a :: a in r <==> a in affected && Matches(c, a)
  {
    if affected == [] then []
    else (if Matches(c, affected[0]) then [affected[0]] else []) + Matching(c, affected[1..])
  }

  predicate NamesAPackage(affected: seq<Affected>) {
    exists a :: a in affected && a.package.Some?
  }

  /**
   The entries that speak about a component: those naming its package; all of them only when none
   names any package. An entry naming another package never speaks about this one.
   */
  function AffectedFor(c: Component, affected: seq<Affected>): (r: seq<Affected>)
    ensures forall a :: a in r ==> a in affected && (a.package.Some? ==> Matches(c, a))
    ensures r == [] && affected != [] ==> NamesAPackage(affected) && forall a :: a in affected ==> !Matches(c, a)
  {
    var matched := Matching(c, affected);
    if matched != [] then matched
    else if NamesAPackage(affected) then []
    else affected
  }

  function FirstInformational(affected: seq<Affected>): Option<string> {
    if affected == [] then None
    else if affected[0].databaseSpecific.Some? && affected[0].databaseSpecific.value.informational.Some?
    then affected[0].databaseSpecific.value.informational
    else FirstInformational(affected[1..])
  }

  function InformationalClass(c: Component, v: OsvVuln): Option<string> {
    if v.databaseSpecific.Some? && v.databaseSpecific.value.informational.Some?
    then v.databaseSpecific.value.informational
    else FirstInformational(AffectedFor(c, v.affected))
  }

  predicate Informational(class_: Option<string>) {
    class_.Some? && IsInformationalClass(class_.value)
  }

  /** An informational finding: a recognised class and no score. */
  predicate IsInformational(f: Finding) {
    f.cvssScore == None && Informational(f.informationalClass)
  }

  /** The severity that could be read: a computed score, else the label, else the lowest for a notice. */
  function AssessedSeverity(lib: Library, c: Component, v: OsvVuln): Option<Severity> {
    var score := FirstScore(lib, v.severity);
    if score.Some? && CvssScoreToSeverity(score.value).Some? then CvssScoreToSeverity(score.value)
    else if v.databaseSpecific.Some? && v.databaseSpecific.value.severity.Some?
            && LabelToSeverity(v.databaseSpecific.value.severity.value).Some?
    then LabelToSeverity(v.databaseSpecific.value.severity.value)
    else if Informational(InformationalClass(c, v)) then Some(Low)
    else None
  }

  function FixedIn(events: seq<Option<string>>): seq<string> {
    if events == [] then [] else (if events[0].Some? then [events[0].value] else []) + FixedIn(events[1..])
  }

  function FixedInRanges(ranges: seq<seq<Option<string>>>): seq<string> {
    if ranges == [] then [] else FixedIn(ranges[0]) + FixedInRanges(ranges[1..])
  }

  function FixedVersions(affected: seq<Affected>): seq<string> {
    if affected == [] then [] else FixedInRanges(affected[0].ranges) + FixedVersions(affected[1..])
  }

  function Truncated(s: seq<string>, n: nat): seq<string> {
    if |s| <= n then s else s[..n]
  }

  // ----- References and aliases ------------------------------------------------------------------

  const REFERENCES_MAX: nat := 32
  const ALIASES_MAX: nat := 16

  ghost predicate DistinctIgnoringCase(s: seq<string>) {
    forall i, j :: 0 <= i < j < |s| ==> !SameIgnoringCase(s[i], s[j])
  }

  function OsvPage(id: string): string {
    "https://osv.dev/vulnerability/" + id
  }

  function AliasUrl(alias: string): string {
    if "CVE-" <= alias then "https://nvd.nist.gov/vuln/detail/" + alias else OsvPage(alias)
  }

  /** Push unseen, non-empty urls until 31 are held; a list already that long still takes one more. */
  function Admitted(refs: seq<string>, urls: seq<string>): seq<string>
    decreases urls
  {
    if urls == [] then refs
    else if urls[0] == [] || urls[0] in refs then Admitted(refs, urls[1..])
    else if |refs| + 1 >= REFERENCES_MAX - 1 then refs + [urls[0]]
    else Admitted(refs + [urls[0]], urls[1..])
  }

  function AliasUrls(aliases: seq<string>): (urls: seq<string>)
    ensures |urls| == |aliases| && forall i :: 0 <= i < |aliases| ==> urls[i] == AliasUrl(aliases[i])
  {
    seq(|aliases|, i requires 0 <= i < |aliases| => AliasUrl(aliases[i]))
  }

  function WithOsvPage(refs: seq<string>, id: string): seq<string> {
    if id == [] || OsvPage(id) in refs then refs
    else (if |refs| >= REFERENCES_MAX then refs[..|refs| - 1] else refs) + [OsvPage(id)]
  }

  function References(v: OsvVuln): seq<string> {
    WithOsvPage(Admitted(Admitted([], v.references), AliasUrls(v.aliases)), v.id)
  }

  lemma {:induction false} AdmittedBounds(refs: seq<string>, urls: seq<string>)
    requires Distinct(refs) && |refs| < REFERENCES_MAX
    ensures Distinct(Admitted(refs, urls)) && refs <= Admitted(refs, urls)
    ensures |Admitted(refs, urls)| <= REFERENCES_MAX
    ensures |refs| < REFERENCES_MAX - 1 ==> |Admitted(refs, urls)| < REFERENCES_MAX
    ensures forall r :: r in Admitted(refs, urls) ==> r in refs || r in urls
    decreases urls
  {
    if urls != [] {
      if urls[0] == [] || urls[0] in refs {
        AdmittedBounds(refs, urls[1..]);
      } else if |refs| + 1 < REFERENCES_MAX - 1 {
        AdmittedBounds(refs + [urls[0]], urls[1..]);
      }
    }
  }

  /** References are pairwise distinct, at most 32, and name the canonical page of any identified record. */
  lemma ReferencesBounds(v: OsvVuln)
    ensures Distinct(References(v)) && |References(v)| <= REFERENCES_MAX
    ensures v.id != [] ==> OsvPage(v.id) in References(v)
    ensures forall r :: r in References(v) ==> r in v.references || r in AliasUrls(v.aliases) || r == OsvPage(v.id)
  {
    var listed := Admitted([], v.references);
    AdmittedBounds([], v.references);
    AdmittedBounds(listed, AliasUrls(v.aliases));
    var refs := Admitted(listed, AliasUrls(v.aliases));
    if v.id != [] && OsvPage(v.id) !in refs {
      assert References(v)[|References(v)| - 1] == OsvPage(v.id);
    }
  }

  /** The three loops that collect references. */
  method CollectReferences(v: OsvVuln) returns (refs: seq<string>)
    ensures refs == References(v)
    ensures Distinct(refs) && |refs| <= REFERENCES_MAX && (v.id != [] ==> OsvPage(v.id) in refs)
  {
    refs := Admit([], v.references);
    refs := Admit(refs, AliasUrls(v.aliases));
    if v.id != [] && OsvPage(v.id) !in refs {
      if |refs| >= REFERENCES_MAX {
        refs := refs[..|refs| - 1];
      }
      refs := refs + [OsvPage(v.id)];
    }
    ReferencesBounds(v);
  }

  method Admit(start: seq<string>, urls: seq<string>) returns (refs: seq<string>)
    ensures refs == Admitted(start, urls)
  {
    refs := start;
    for i := 0 to |urls|
      invariant Admitted(refs, urls[i..]) == Admitted(start, urls)
    {
      assert urls[i..][0] == urls[i] && urls[i..][1..] == urls[i + 1..];
      if urls[i] != [] && urls[i] !in refs {
        refs := refs + [urls[i]];
        if |refs| >= REFERENCES_MAX - 1 {
          return;
        }
      }
    }
  }

  predicate HasIgnoringCase(aliases: seq<string>, a: string) {
    exists i :: 0 <= i < |aliases| && SameIgnoringCase(aliases[i], a)
  }

  function Aliases(kept: seq<string>, raw: seq<string>): seq<string>
    decreases raw
  {
    if raw == [] then kept
    else
      var a := Trim(raw[0]);
      if a == [] || HasIgnoringCase(kept, a) then Aliases(kept, raw[1..])
      else if |kept| + 1 >= ALIASES_MAX then kept + [a]
      else Aliases(kept + [a], raw[1..])
  }

  /** Aliases are at most 16, and pairwise distinct whatever their case. */
  lemma {:induction false} AliasesBounds(kept: seq<string>, raw: seq<string>)
    requires DistinctIgnoringCase(kept) && |kept| < ALIASES_MAX
    ensures DistinctIgnoringCase(Aliases(kept, raw)) && |Aliases(kept, raw)| <= ALIASES_MAX
    decreases raw
  {
    if raw != [] {
      var a := Trim(raw[0]);
      if a == [] || HasIgnoringCase(kept, a) {
        AliasesBounds(kept, raw[1..]);
      } else if |kept| + 1 < ALIASES_MAX {
        AliasesBounds(kept + [a], raw[1..]);
      }
    }
  }

  method CollectAliases(raw: seq<string>) returns (aliases: seq<string>)
    ensures aliases == Aliases([], raw)
    ensures DistinctIgnoringCase(aliases) && |aliases| <= ALIASES_MAX
  {
    AliasesBounds([], raw);
    aliases := [];
    for i := 0 to |raw|
      invariant Aliases(aliases, raw[i..]) == Aliases([], raw)
    {
      assert raw[i..][0] == raw[i] && raw[i..][1..] == raw[i + 1..];
      var a := Trim(raw[i]);
      if a != [] && !HasIgnoringCase(aliases, a) {
        aliases := aliases + [a];
        if |aliases| >= ALIASES_MAX {
          return;
        }
      }
    }
  }

  // ----- The finding -----------------------------------------------------------------------------

  function VulnToFinding(lib: Library, c: Component, v: OsvVuln): Finding {
    var assessed := AssessedSeverity(lib, c, v);
    Finding(
      c.purl,
      v.id,
      if assessed.Some? then assessed.value else Critical,
      FirstScore(lib, v.severity),
      if v.summary.Some? then v.summary.value else if v.details.Some? then v.details.value else v.id,
      Truncated(FixedVersions(AffectedFor(c, v.affected)), REFERENCES_MAX),
      References(v),
      Aliases([], v.aliases),
      InformationalClass(c, v),
      assessed.Some?,
      if v.published.Some? then lib.timestamp(v.published.value) else None)
  }

  /** An entry may speak for a component: it names no package, or names this one. */
  predicate Speaks(c: Component, a: Affected) {
    a.package.Some? ==> Matches(c, a)
  }

  lemma {:induction false} FirstInformationalFrom(affected: seq<Affected>)
    ensures FirstInformational(affected).Some? ==>
              exists a :: a in affected && a.databaseSpecific.Some? && a.databaseSpecific.value.informational == FirstInformational(affected)
  {
    if affected != [] {
      FirstInformationalFrom(affected[1..]);
    }
  }

  /** A class comes from the record itself or from an entry that may speak for the component. */
  lemma ForeignClassNotInherited(c: Component, v: OsvVuln)
    ensures InformationalClass(c, v).Some? ==>
              || (v.databaseSpecific.Some? && v.databaseSpecific.value.informational == InformationalClass(c, v))
              || exists a :: a in v.affected && Speaks(c, a) && a.databaseSpecific.Some?
                             && a.databaseSpecific.value.informational == InformationalClass(c, v)
  {
    FirstInformationalFrom(AffectedFor(c, v.affected));
  }

  lemma {:induction false} FixedVersionsFrom(affected: seq<Affected>, version: string)
    requires version in FixedVersions(affected)
    ensures exists a :: a in affected && version in FixedInRanges(a.ranges)
  {
    if version !in FixedInRanges(affected[0].ranges) {
      FixedVersionsFrom(affected[1..], version);
    }
  }

  /** No fixed version of another package is reported, and at most 32 in all. */
  lemma ForeignFixesNotReported(lib: Library, c: Component, v: OsvVuln, version: string)
    requires version in VulnToFinding(lib, c, v).fixedVersions
    ensures |VulnToFinding(lib, c, v).fixedVersions| <= REFERENCES_MAX
    ensures exists a :: a in v.affected && Speaks(c, a) && version in FixedInRanges(a.ranges)
  {
    FixedVersionsFrom(AffectedFor(c, v.affected), version);
  }

  /** The first score a vector gives, where it is on the scale. */
  function ReadScore(lib: Library, v: OsvVuln): (r: Option<real>)
    ensures r.Some? ==> 0.1 <= r.value <= 10.0
  {
    var score := FirstScore(lib, v.severity);
    if score.Some? && 0.1 <= score.value <= 10.0 then score else None
  }

  function ReadLabel(v: OsvVuln): Option<Severity> {
    if v.databaseSpecific.Some? && v.databaseSpecific.value.severity.Some?
    then LabelToSeverity(v.databaseSpecific.value.severity.value)
    else None
  }

  /**
   Severity fails closed: a finding stays below a tier only on a reading that puts it there, which is
   a score below the tier's threshold, without one a milder label, and without either a recognised
   informational class. A record from which nothing can be read is in every tier and not informational.
   */
  lemma BelowTierExactlyWhen(lib: Library, c: Component, v: OsvVuln, rank: nat)
    requires 1 <= rank <= 3
    ensures VulnToFinding(lib, c, v).severity.Rank() < rank <==>
            match ReadScore(lib, v)
            case Some(score) => score < [0.1, 4.0, 7.0, 9.0][rank]
            case None =>
              match ReadLabel(v)
              case Some(label_) => label_.Rank() < rank
              case None => Informational(InformationalClass(c, v))
    ensures VulnToFinding(lib, c, v).assessed
            <==> ReadScore(lib, v).Some? || ReadLabel(v).Some? || Informational(InformationalClass(c, v))
  {
    var score := FirstScore(lib, v.severity);
    if score.Some? {
      BandsExact(score.value, 0);
      BandsExact(score.value, rank);
    }
  }
}
