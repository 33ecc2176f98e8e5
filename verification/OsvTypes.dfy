/** The records the advisory feed serves and the findings made of them. */
module OsvTypes {
  import opened Common

  datatype Ecosystem =
    | Npm | PyPI | Cargo | Maven | Go | RubyGems | NuGet | Composer | Hex | Pub | Conda
    | Helm | OciImage | Unknown(name: string)

  /** The feed's label of an ecosystem, for those it covers. */
  function OsvEcosystemFor(eco: Ecosystem): Option<string> {
    match eco
    case Npm => Some("npm")
    case PyPI => Some("PyPI")
    case Cargo => Some("crates.io")
    case Maven => Some("Maven")
    case Go => Some("Go")
    case RubyGems => Some("RubyGems")
    case NuGet => Some("NuGet")
    case Composer => Some("Packagist")
    case Hex => Some("Hex")
    case Pub => Some("Pub")
    case Conda => Some("Conda")
    case _ => None
  }

  function OsvLabelToEcosystem(text: string): Option<Ecosystem> {
    match text
    case "npm" => Some(Npm)
    case "PyPI" => Some(PyPI)
    case "crates.io" => Some(Cargo)
    case "Maven" => Some(Maven)
    case "Go" => Some(Go)
    case "RubyGems" => Some(RubyGems)
    case "NuGet" => Some(NuGet)
    case "Packagist" => Some(Composer)
    case "Hex" => Some(Hex)
    case "Pub" => Some(Pub)
    case "Conda" => Some(Conda)
    case _ => None
  }

  /** The two mappings are inverse to each other wherever either is defined. */
  lemma EcosystemLabelsInverse(eco: Ecosystem, text: string)
    ensures OsvEcosystemFor(eco) == Some(text) <==> OsvLabelToEcosystem(text) == Some(eco)
  {
  }

  // ----- Records ---------------------------------------------------------------------------------

  datatype DatabaseSpecific = DatabaseSpecific(severity: Option<string>, informational: Option<string>)

  datatype AffectedPackage = AffectedPackage(name: Option<string>, ecosystem: Option<string>)

  /** `ranges` keeps, per range, the fixed version each event names, if any. */
  datatype Affected = Affected(
    package: Option<AffectedPackage>,
    ranges: seq<seq<Option<string>>>,
    databaseSpecific: Option<DatabaseSpecific>)

  datatype OsvVuln = OsvVuln(
    id: string,
    modified: Option<string>,
    published: Option<string>,
    summary: Option<string>,
    details: Option<string>,
    aliases: seq<string>,
    severity: seq<Option<string>>,
    databaseSpecific: Option<DatabaseSpecific>,
    affected: seq<Affected>,
    references: seq<string>)

  /** A record as the batch endpoint abbreviates it: identity and modification time alone. */
  function Abbreviated(id: string, modified: Option<string>): OsvVuln {
    OsvVuln(id, modified, None, None, None, [], [], None, [], [])
  }

  datatype Severity = Low | Medium | High | Critical {
    function Rank(): nat {
      match this
      case Low => 0
      case Medium => 1
      case High => 2
      case Critical => 3
    }
  }

  datatype Finding = Finding(
    purl: string,
    vulnerabilityId: string,
    severity: Severity,
    cvssScore: Option<real>,
    title: string,
    fixedVersions: seq<string>,
    references: seq<string>,
    aliases: seq<string>,
    informationalClass: Option<string>,
    assessed: bool,
    published: Option<string>)

  // ----- Components ------------------------------------------------------------------------------

  datatype SbomComponent = SbomComponent(purl: string, name: string, version: Option<string>, ecosystem: Ecosystem)

  datatype Component = Component(name: string, version: Option<string>, eco: string, purl: string)

  /** The components the feed can be asked about, in order. */
  function Prepared(components: seq<SbomComponent>): (r: seq<Component>)
    ensures forall c :: c in r ==> c.name != [] && OsvLabelToEcosystem(c.eco).Some?
  {
    if components == [] then []
    else
      var front, last := Prepared(components[..|components| - 1]), components[|components| - 1];
      if last.name == [] then front
      else match OsvEcosystemFor(last.ecosystem)
        case None => front
        case Some(eco) => EcosystemLabelsInverse(last.ecosystem, eco); front + [Component(last.name, last.version, eco, last.purl)]
  }

  method PrepareComponents(components: seq<SbomComponent>) returns (out: seq<Component>)
    ensures out == Prepared(components)
  {
    out := [];
    for i := 0 to |components|
      invariant out == Prepared(components[..i])
    {
      assert components[..i + 1][..i] == components[..i];
      if components[i].name != [] {
        var eco := OsvEcosystemFor(components[i].ecosystem);
        if eco.Some? {
          out := out + [Component(components[i].name, components[i].version, eco.value, components[i].purl)];
        }
      }
    }
    assert components[..|components|] == components;
  }
}
