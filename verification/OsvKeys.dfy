/**
 Cache keys of the advisory adapter. A key is a keyspace prefix and the hex digest of its fields
 joined by a separator; the digest is idealised as collision free.
 */
module OsvKeys {
  import opened Common
  import opened Hex

  /** The ASCII unit separator. */
  const SEPARATOR: char := 31 as char

  const COMPONENT_PREFIX := "advisory:osv:"
  const VULN_PREFIX := "advisory:osv:vuln:"

  type Digest = string -> seq<byte>

  ghost predicate CollisionFree(digest: Digest) {
    forall a, b :: digest(a) == digest(b) ==> a == b
  }

  predicate SeparatorFree(s: string) {
    SEPARATOR !in s
  }

  function ComponentPreimage(eco: string, name: string, version: Option<string>): string {
    eco + [SEPARATOR] + (name + [SEPARATOR] + ("v=" + if version.Some? then version.value else "*"))
  }

  function VulnPreimage(id: string, modified: Option<string>): string {
    id + [SEPARATOR] + ("m=" + if modified.Some? then modified.value else "*")
  }

  function ComponentKey(digest: Digest, eco: string, name: string, version: Option<string>): string {
    COMPONENT_PREFIX + HexOf(digest(ComponentPreimage(eco, name, version)))
  }

  function VulnKey(digest: Digest, id: string, modified: Option<string>): string {
    VULN_PREFIX + HexOf(digest(VulnPreimage(id, modified)))
  }

  // ----- Preimages -------------------------------------------------------------------------------

  /** An absent field is written like a field holding the one character `*`. */
  predicate SameField(a: Option<string>, b: Option<string>) {
    (if a.Some? then a.value else "*") == (if b.Some? then b.value else "*")
  }

  /**
   Exactly when two components share a key: same ecosystem, same name, and the same version up to
   the confusion of an absent version with the literal `*`.
   */
  lemma ComponentPreimagesEqual(eco: string, name: string, version: Option<string>,
                                eco': string, name': string, version': Option<string>)
    requires SeparatorFree(eco) && SeparatorFree(name) && SeparatorFree(eco') && SeparatorFree(name')
    ensures ComponentPreimage(eco, name, version) == ComponentPreimage(eco', name', version')
            <==> eco == eco' && name == name' && SameField(version, version')
  {
    var tail := "v=" + if version.Some? then version.value else "*";
    var tail' := "v=" + if version'.Some? then version'.value else "*";
    if ComponentPreimage(eco, name, version) == ComponentPreimage(eco', name', version') {
      SplitUnique(SEPARATOR, eco, name + [SEPARATOR] + tail, eco', name' + [SEPARATOR] + tail');
      SplitUnique(SEPARATOR, name, tail, name', tail');
      assert tail[2..] == (if version.Some? then version.value else "*");
      assert tail'[2..] == (if version'.Some? then version'.value else "*");
    }
  }

  lemma VulnPreimagesEqual(id: string, modified: Option<string>, id': string, modified': Option<string>)
    requires SeparatorFree(id) && SeparatorFree(id')
    ensures VulnPreimage(id, modified) == VulnPreimage(id', modified') <==> id == id' && SameField(modified, modified')
  {
    var tail := "m=" + if modified.Some? then modified.value else "*";
    var tail' := "m=" + if modified'.Some? then modified'.value else "*";
    if VulnPreimage(id, modified) == VulnPreimage(id', modified') {
      SplitUnique(SEPARATOR, id, tail, id', tail');
      assert tail[2..] == (if modified.Some? then modified.value else "*");
      assert tail'[2..] == (if modified'.Some? then modified'.value else "*");
    }
  }

  /** The separator does not protect a name that contains it: two different components, one preimage. */
  lemma SeparatorInNameCollides(eco: string)
    ensures var s := [SEPARATOR];
            && ComponentPreimage(eco, "a", Some("b" + s + "v=c")) == ComponentPreimage(eco, "a" + s + "v=b", Some("c"))
            && "a" != "a" + s + "v=b"
  {
    var s := [SEPARATOR];
    assert "a" + s + ("v=" + ("b" + s + "v=c")) == ("a" + s + "v=b") + s + ("v=" + "c");
    assert |"a"| != |"a" + s + "v=b"|;
  }

  // ----- Whole keys ------------------------------------------------------------------------------

  lemma ComponentKeysEqual(digest: Digest, eco: string, name: string, version: Option<string>,
                           eco': string, name': string, version': Option<string>)
    requires CollisionFree(digest)
    ensures ComponentKey(digest, eco, name, version) == ComponentKey(digest, eco', name', version')
            <==> ComponentPreimage(eco, name, version) == ComponentPreimage(eco', name', version')
  {
    var a, b := digest(ComponentPreimage(eco, name, version)), digest(ComponentPreimage(eco', name', version'));
    if ComponentKey(digest, eco, name, version) == ComponentKey(digest, eco', name', version') {
      assert HexOf(a) == (COMPONENT_PREFIX + HexOf(a))[|COMPONENT_PREFIX|..];
      assert HexOf(b) == (COMPONENT_PREFIX + HexOf(b))[|COMPONENT_PREFIX|..];
      HexInjective(a, b);
    }
  }

  lemma VulnKeysEqual(digest: Digest, id: string, modified: Option<string>, id': string, modified': Option<string>)
    requires CollisionFree(digest)
    ensures VulnKey(digest, id, modified) == VulnKey(digest, id', modified') <==> VulnPreimage(id, modified) == VulnPreimage(id', modified')
  {
    var a, b := digest(VulnPreimage(id, modified)), digest(VulnPreimage(id', modified'));
    if VulnKey(digest, id, modified) == VulnKey(digest, id', modified') {
      assert HexOf(a) == (VULN_PREFIX + HexOf(a))[|VULN_PREFIX|..];
      assert HexOf(b) == (VULN_PREFIX + HexOf(b))[|VULN_PREFIX|..];
      HexInjective(a, b);
    }
  }

  /** One prefix extends the other, yet no key of one keyspace is a key of the other. */
  lemma KeyspacesDisjoint(digest: Digest, eco: string, name: string, version: Option<string>, id: string, modified: Option<string>)
    ensures ComponentKey(digest, eco, name, version) != VulnKey(digest, id, modified)
  {
    var hex := HexOf(digest(ComponentPreimage(eco, name, version)));
    var a, b := COMPONENT_PREFIX + hex, VulnKey(digest, id, modified);
    assert b[|COMPONENT_PREFIX|] == VULN_PREFIX[|COMPONENT_PREFIX|] == 'v';
    assert hex != [] ==> a[|COMPONENT_PREFIX|] == hex[0] != 'v';
  }
}
