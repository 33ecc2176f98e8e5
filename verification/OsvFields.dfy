/** What of a record a finding carries: nothing is left out but past a cap. */
module OsvFields {
  import opened Common
  import opened Text
  import opened OsvTypes
  import opened OsvFinding

  // ----- Fixed versions --------------------------------------------------------------------------

  ghost predicate NamesFix(a: Affected, version: string) {
    exists r, e :: 0 <= r < |a.ranges| && 0 <= e < |a.ranges[r]| && a.ranges[r][e] == Some(version)
  }

  lemma {:induction false} FixedInExactly(events: seq<Option<string>>, version: string)
    ensures version in FixedIn(events) <==> Some(version) in events
  {
    if events != [] {
      FixedInExactly(events[1..], version);
      assert events == [events[0]] + events[1..];
    }
  }

  lemma {:induction false} FixedInRangesExactly(ranges: seq<seq<Option<string>>>, version: string)
    ensures version in FixedInRanges(ranges) <==> exists r :: 0 <= r < |ranges| && Some(version) in ranges[r]
  {
    if ranges != [] {
      FixedInExactly(ranges[0], version);
      FixedInRangesExactly(ranges[1..], version);
      if r :| 0 <= r < |ranges| && Some(version) in ranges[r] {
        assert r > 0 ==> ranges[1..][r - 1] == ranges[r];
      }
      if r :| 0 <= r < |ranges[1..]| && Some(version) in ranges[1..][r] {
        assert ranges[r + 1] == ranges[1..][r];
      }
    }
  }

  lemma {:induction false} FixedVersionsExactly(affected: seq<Affected>, version: string)
    ensures version in FixedVersions(affected) <==> exists a :: a in affected && NamesFix(a, version)
  {
    if affected != [] {
      FixedInRangesExactly(affected[0].ranges, version);
      FixedVersionsExactly(affected[1..], version);
      assert affected == [affected[0]] + affected[1..];
      assert NamesFix(affected[0], version) <==> version in FixedInRanges(affected[0].ranges);
    }
  }

  /** The entries that decide: those that name this package, and if none names any package all of them. */
  ghost predicate Decides(c: Component, affected: seq<Affected>, a: Affected) {
    a in affected && (Matches(c, a) || forall b :: b in affected ==> b.package.None?)
  }

  lemma DecidesExactly(c: Component, affected: seq<Affected>, a: Affected)
    ensures a in AffectedFor(c, affected) <==> Decides(c, affected, a)
  {
    if Matching(c, affected) != [] {
      var m := Matching(c, affected)[0];
      assert m in Matching(c, affected) && m in affected && m.package.Some?;
    }
  }

  /** Up to 32, the fixed versions reported are exactly those the deciding entries name. */
  lemma FixesExactly(lib: Library, c: Component, v: OsvVuln, version: string)
    ensures version in VulnToFinding(lib, c, v).fixedVersions ==> exists a :: Decides(c, v.affected, a) && NamesFix(a, version)
    ensures |VulnToFinding(lib, c, v).fixedVersions| < REFERENCES_MAX ==>
              forall a :: Decides(c, v.affected, a) && NamesFix(a, version) ==> version in VulnToFinding(lib, c, v).fixedVersions
  {
    var chosen := AffectedFor(c, v.affected);
    FixedVersionsExactly(chosen, version);
    forall a ensures a in chosen <==> Decides(c, v.affected, a) {
      DecidesExactly(c, v.affected, a);
    }
  }

  // ----- Aliases and references ------------------------------------------------------------------

  lemma HasMore(kept: seq<string>, more: seq<string>, a: string)
    requires kept <= more && HasIgnoringCase(kept, a)
    ensures HasIgnoringCase(more, a)
  {
    var i :| 0 <= i < |kept| && SameIgnoringCase(kept[i], a);
    assert more[i] == kept[i];
  }

  lemma {:induction false} AliasesComplete(kept: seq<string>, raw: seq<string>)
    ensures kept <= Aliases(kept, raw)
    ensures forall a :: a in Aliases(kept, raw) ==> a in kept || exists i :: 0 <= i < |raw| && a == Trim(raw[i])
    ensures |Aliases(kept, raw)| < ALIASES_MAX ==>
              forall i :: 0 <= i < |raw| && Trim(raw[i]) != [] ==> HasIgnoringCase(Aliases(kept, raw), Trim(raw[i]))
    decreases raw
  {
    if raw != [] {
      var a, result := Trim(raw[0]), Aliases(kept, raw);
      var next := if a == [] || HasIgnoringCase(kept, a) then kept else kept + [a];
      AliasesComplete(next, raw[1..]);
      forall x | x in Aliases(next, raw[1..]) ensures x in kept || exists i :: 0 <= i < |raw| && x == Trim(raw[i]) {
        if j :| 0 <= j < |raw[1..]| && x == Trim(raw[1..][j]) {
          assert raw[j + 1] == raw[1..][j];
        }
      }
      if |result| < ALIASES_MAX {
        assert result == Aliases(next, raw[1..]);
        if a != [] {
          HasItself(kept, a, next);
          HasMore(next, result, a);
        }
        forall i | 0 <= i < |raw| && Trim(raw[i]) != [] ensures HasIgnoringCase(result, Trim(raw[i])) {
          if i > 0 {
            assert raw[1..][i - 1] == raw[i];
          }
        }
      }
    }
  }

  lemma HasItself(kept: seq<string>, a: string, next: seq<string>)
    requires next == if HasIgnoringCase(kept, a) then kept else kept + [a]
    ensures HasIgnoringCase(next, a)
  {
    if next != kept {
      assert next[|kept|] == a;
    }
  }

  /** A finding's aliases are the record's, trimmed; one is left out only if it is blank, a repetition, or there are sixteen. */
  lemma AliasesExactly(lib: Library, c: Component, v: OsvVuln)
    ensures var out := VulnToFinding(lib, c, v).aliases;
            && (forall a :: a in out ==> exists i :: 0 <= i < |v.aliases| && a == Trim(v.aliases[i]))
            && (|out| < ALIASES_MAX ==>
                  forall i :: 0 <= i < |v.aliases| && Trim(v.aliases[i]) != [] ==> HasIgnoringCase(out, Trim(v.aliases[i])))
  {
    AliasesComplete([], v.aliases);
  }

  lemma {:induction false} AdmittedComplete(refs: seq<string>, urls: seq<string>)
    ensures refs <= Admitted(refs, urls)
    ensures |Admitted(refs, urls)| < REFERENCES_MAX - 1 ==> forall u :: u in urls && u != [] ==> u in Admitted(refs, urls)
    decreases urls
  {
    if urls != [] {
      var next := if urls[0] == [] || urls[0] in refs then refs else refs + [urls[0]];
      AdmittedComplete(next, urls[1..]);
      assert urls == [urls[0]] + urls[1..];
      if |Admitted(refs, urls)| < REFERENCES_MAX - 1 {
        assert Admitted(refs, urls) == Admitted(next, urls[1..]);
        if urls[0] != [] {
          assert urls[0] in next;
        }
      }
    }
  }

  /** While there are fewer than 31 references, none the record lists is left out, nor the page of an alias. */
  lemma ReferencesComplete(v: OsvVuln, url: string)
    requires |References(v)| < REFERENCES_MAX - 1
    ensures url in v.references && url != [] ==> url in References(v)
    ensures forall a :: a in v.aliases && "CVE-" <= a ==> "https://nvd.nist.gov/vuln/detail/" + a in References(v)
    ensures forall a :: a in v.aliases && !("CVE-" <= a) ==> "https://osv.dev/vulnerability/" + a in References(v)
  {
    var listed, urls := Admitted([], v.references), AliasUrls(v.aliases);
    var refs := Admitted(listed, urls);
    AdmittedComplete([], v.references);
    AdmittedComplete(listed, urls);
    forall a | a in v.aliases ensures AliasUrl(a) in References(v) {
      var i :| 0 <= i < |v.aliases| && v.aliases[i] == a;
      assert urls[i] == AliasUrl(a) && urls[i] in urls;
    }
  }

  /**
   The identifier, the instant of publication where it can be read, and the title: the summary, or without
   one the details, or without either the identifier.
   */
  lemma TitleExactly(lib: Library, c: Component, v: OsvVuln)
    ensures var f := VulnToFinding(lib, c, v);
            && f.vulnerabilityId == v.id
            && (v.summary.Some? ==> v.summary == Some(f.title))
            && (v.summary.None? && v.details.Some? ==> v.details == Some(f.title))
            && (v.summary.None? && v.details.None? ==> f.title == v.id)
            && (v.published.Some? ==> f.published == lib.timestamp(v.published.value)) && (v.published.None? ==> f.published.None?)
  {
  }
}
