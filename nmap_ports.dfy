/**
 * The per-port part of `parseNmapOutput` in main.go: every script output of
 * a port is parsed in turn and the port's four TLS slots and grade are
 * overwritten from each parse, so the last script wins.
 */
module NmapPorts {
  import opened SslEnumCiphers
  import SslEnumCiphersProperties

  /** `TLSVersions`: the four fixed version slots of a port and its grade. */
  datatype TLSVersions = TLSVersions(
    tls10: CipherData,
    tls11: CipherData,
    tls12: CipherData,
    tls13: CipherData,
    strength: string)

  /** Go's zero value `TLSVersions{}`, which a port starts with. */
  const EmptyTLS := TLSVersions(EmptyData, EmptyData, EmptyData, EmptyData, "")

  /** The slots taken from one parse; labels other than the four are dropped. */
  function Project(p: Parsed): TLSVersions
  {
    TLSVersions(
      Lookup(p.versions, "TLSv1.0"),
      Lookup(p.versions, "TLSv1.1"),
      Lookup(p.versions, "TLSv1.2"),
      Lookup(p.versions, "TLSv1.3"),
      p.strength)
  }

  /** A port's TLS fields after the loop over the outputs `scripts`, as a fold. */
  function PortTLS(scripts: seq<string>): Outcome<TLSVersions>
    decreases |scripts|
  {
    if scripts == [] then Ok(EmptyTLS)
    else
      match PortTLS(scripts[..|scripts| - 1])
      case IndexOutOfRange(m) => IndexOutOfRange(m)
      case Ok(_) =>
        match Parse(scripts[|scripts| - 1])
        case IndexOutOfRange(m) => IndexOutOfRange(m)
        case Ok(p) => Ok(Project(p))
  }

  /** Once a prefix of the scripts has failed, the whole loop fails the same way. */
  lemma {:induction false} PortFailureSticks(scripts: seq<string>, i: nat)
    requires i <= |scripts| && PortTLS(scripts[..i]).IndexOutOfRange?
    ensures PortTLS(scripts) == PortTLS(scripts[..i])
    decreases |scripts| - i
  {
    if i < |scripts| {
      assert scripts[..i + 1][..i] == scripts[..i];
      PortFailureSticks(scripts, i + 1);
    } else {
      assert scripts[..i] == scripts;
    }
  }

  /** The loop `for _, script := range port.Scripts` of main.go. */
  method ScanPortScripts(scripts: seq<string>) returns (r: Outcome<TLSVersions>)
    ensures r == PortTLS(scripts)
    ensures scripts == [] ==> r == Ok(EmptyTLS)
  {
    var tls := EmptyTLS;
    var i := 0;
    assert scripts[..i] == [];
    while i < |scripts|
      invariant i <= |scripts|
      invariant PortTLS(scripts[..i]) == Ok(tls)
    {
      assert scripts[..i + 1][..i] == scripts[..i];
      var parsed := ParseOutput(scripts[i]);
      match parsed
      case IndexOutOfRange(m) =>
        PortFailureSticks(scripts, i + 1);
        return IndexOutOfRange(m);
      case Ok(Parsed(tlsVersions, strength)) =>
        tls := tls.(tls10 := Lookup(tlsVersions, "TLSv1.0"));
        tls := tls.(tls11 := Lookup(tlsVersions, "TLSv1.1"));
        tls := tls.(tls12 := Lookup(tlsVersions, "TLSv1.2"));
        tls := tls.(tls13 := Lookup(tlsVersions, "TLSv1.3"));
        tls := tls.(strength := strength);
      i := i + 1;
    }
    assert scripts[..i] == scripts;
    r := Ok(tls);
  }

  /**
   * The last script wins: when the loop does not fail, the port's fields
   * are exactly the projection of the last script's parse, whatever the
   * earlier scripts held.
   */
  lemma LastScriptWins(scripts: seq<string>)
    requires scripts != [] && PortTLS(scripts).Ok?
    ensures Parse(scripts[|scripts| - 1]).Ok?
    ensures PortTLS(scripts) == Ok(Project(Parse(scripts[|scripts| - 1]).value))
  {
  }

  /** The loop fails exactly when the parse of one of the scripts fails. */
  lemma {:induction false} PortTLSOkIff(scripts: seq<string>)
    ensures PortTLS(scripts).Ok? <==> forall k :: 0 <= k < |scripts| ==> Parse(scripts[k]).Ok?
    decreases |scripts|
  {
    if scripts != [] {
      var init := scripts[..|scripts| - 1];
      PortTLSOkIff(init);
      assert forall k :: 0 <= k < |init| ==> init[k] == scripts[k];
    }
  }

  /**
   * Each slot holds the record of its label, or the empty record when the
   * label was not seen; the grade is carried over.
   */
  lemma ProjectSlots(p: Parsed)
    ensures "TLSv1.0" in p.versions ==> Project(p).tls10 == p.versions["TLSv1.0"]
    ensures "TLSv1.1" in p.versions ==> Project(p).tls11 == p.versions["TLSv1.1"]
    ensures "TLSv1.2" in p.versions ==> Project(p).tls12 == p.versions["TLSv1.2"]
    ensures "TLSv1.3" in p.versions ==> Project(p).tls13 == p.versions["TLSv1.3"]
    ensures "TLSv1.0" !in p.versions ==> Project(p).tls10 == EmptyData
    ensures "TLSv1.1" !in p.versions ==> Project(p).tls11 == EmptyData
    ensures "TLSv1.2" !in p.versions ==> Project(p).tls12 == EmptyData
    ensures "TLSv1.3" !in p.versions ==> Project(p).tls13 == EmptyData
    ensures Project(p).strength == p.strength
  {
  }

  /** A record under any other label does not reach the port. */
  lemma ProjectDropsOtherLabels(p: Parsed, other: string, d: CipherData)
    requires other != "TLSv1.0" && other != "TLSv1.1" && other != "TLSv1.2" && other != "TLSv1.3"
    ensures Project(p.(versions := p.versions[other := d])) == Project(p)
  {
  }

  /** A port whose script printed nothing gets all-empty TLS fields. */
  lemma EmptyScriptGivesEmptyFields()
    ensures PortTLS([""]) == Ok(EmptyTLS)
  {
    SslEnumCiphersProperties.ParseEmpty();
    assert [""][..0] == [];
  }
}
