/** Stremio add-ons and their catalogues (resources/lib/classes/StremioAddon.py):
    the manifest, the resources an add-on serves, the catalogue title, the
    URL helpers and the back-references set up on construction. */
module StremioAddon {
  import opened Wrappers
  import opened Text

  /** An extra parameter a catalogue accepts. */
  datatype Extra = Extra(name: string, isRequired: bool, options: seq<string>, optionsLimit: Option<int>)

  /** A resource an add-on serves, restricted to some types and id prefixes;
      `idPrefixes == None` is Python's None (no restriction). */
  datatype Resource = Resource(name: string, types: seq<string>, idPrefixes: Option<seq<string>>)

  /** An entry of `manifest.resources`: a bare resource name or a full
      Resource. */
  datatype ResourceDecl = Shorthand(name: string) | Structured(resource: Resource)

  /** A catalogue. Its name may be filled in by the owning add-on, and it
      points back to that add-on. */
  class Catalog {
    const id: string
    const catalogType: string
    var name: string
    const extra: seq<Extra>
    const extraRequired: seq<string>
    const extraSupported: seq<string>
    var addon: Addon?

    constructor (id: string, catalogType: string, name: string, extra: seq<Extra>,
                 extraRequired: seq<string>, extraSupported: seq<string>)
      ensures this.id == id && this.catalogType == catalogType && this.name == name
      ensures this.extra == extra && this.extraRequired == extraRequired
      ensures this.extraSupported == extraSupported && addon == null
    {
      this.id := id;
      this.catalogType := catalogType;
      this.name := name;
      this.extra := extra;
      this.extraRequired := extraRequired;
      this.extraSupported := extraSupported;
      this.addon := null;
    }

    /** `Catalog.title`: "<name> - <Type>", the type with its first
        character upper-cased and the rest as it is. */
    function Title(): (r: string)
      reads this
      ensures |r| == |name| + 3 + |catalogType|
      ensures r[..|name| + 3] == name + " - "
      ensures |catalogType| > 0 ==> r[|name| + 3] == UpperChar(catalogType[0])
      ensures forall k :: 1 <= k < |catalogType| ==> r[|name| + 3 + k] == catalogType[k]
    {
      var head := if catalogType == [] then [] else [UpperChar(catalogType[0])];
      var tail := if catalogType == [] then [] else catalogType[1..];
      name + " - " + head + tail
    }
  }

  datatype Manifest = Manifest(
    id: string,
    version: string,
    name: string,
    description: string,
    types: seq<string>,
    catalogs: seq<Catalog>,
    resources: seq<ResourceDecl>,
    idPrefixes: Option<seq<string>>)

  const ManifestPath: string := "/manifest.json"

  /** An installed add-on. */
  class Addon {
    const transportUrl: string
    const transportName: string
    const manifest: Manifest
    const official: bool
    const protected: bool

    /** `StremioAddon.__post_init__`: every catalogue of the manifest points
        back to this add-on, and an unnamed catalogue takes the manifest's
        name. */
    constructor (transportUrl: string, transportName: string, manifest: Manifest, official: bool, protected: bool)
      modifies set c | c in manifest.catalogs
      ensures this.transportUrl == transportUrl && this.transportName == transportName
      ensures this.manifest == manifest && this.official == official && this.protected == protected
      ensures forall c :: c in manifest.catalogs ==> c.addon == this
      ensures forall c :: c in manifest.catalogs ==>
                c.name == if old(c.name) == "" then manifest.name else old(c.name)
    {
      this.transportUrl := transportUrl;
      this.transportName := transportName;
      this.manifest := manifest;
      this.official := official;
      this.protected := protected;
      new;
      var catalogs := manifest.catalogs;
      for i := 0 to |catalogs|
        invariant forall c :: c in catalogs[..i] ==> c.addon == this
        invariant forall c :: c in catalogs[..i] ==>
                    c.name == (if old(c.name) == "" then manifest.name else old(c.name))
        invariant forall c :: c in catalogs && c !in catalogs[..i] ==> c.name == old(c.name)
      {
        var c := catalogs[i];
        c.addon := this;
        if c.name == "" {
          c.name := manifest.name;
        }
      }
      assert catalogs[..|catalogs|] == catalogs;
    }

    /** `legacy`: the transport URL does not end in "manifest.json". */
    function Legacy(): bool {
      !EndsWith(transportUrl, "manifest.json")
    }

    /** `base_url`: the transport URL up to its first "/manifest.json". */
    function BaseUrl(): (r: string)
      ensures StartsWith(transportUrl, r)
      ensures Find(transportUrl, ManifestPath).None? ==> r == transportUrl
      ensures Find(transportUrl, ManifestPath).Some? ==>
                OccursAt(transportUrl, ManifestPath, |r|)
                && forall j :: 0 <= j < |r| ==> !OccursAt(transportUrl, ManifestPath, j)
    {
      BeforeFirst(transportUrl, ManifestPath)
    }
  }

  /** `s.split(p)[0]`: the text before the first occurrence of `p`. */
  function BeforeFirst(s: string, p: string): (r: string)
    ensures StartsWith(s, r)
    ensures Find(s, p).None? ==> r == s
    ensures Find(s, p).Some? ==> OccursAt(s, p, |r|) && forall j :: 0 <= j < |r| ==> !OccursAt(s, p, j)
  {
    match Find(s, p)
    case None => s
    case Some(i) => s[..i]
  }

  /** '/' occurs in "/manifest.json" only at its start, so the suffix cannot
      overlap an earlier occurrence. */
  lemma NoStraddle(b: string, j: nat)
    requires j < |b| < j + |ManifestPath|
    ensures !OccursAt(b + ManifestPath, ManifestPath, j)
  {
    var s := b + ManifestPath;
    var d := |b| - j;
    assert s[|b|] == '/' && s[j..j + |ManifestPath|][d] == s[|b|];
    assert ManifestPath[d] != '/';
  }

  /** An add-on installed from `<base>/manifest.json` has `base` as its base
      URL and is not legacy. */
  lemma ManifestUrlBase(a: Addon, base: string)
    requires a.transportUrl == base + ManifestPath && Find(base, ManifestPath).None?
    ensures a.BaseUrl() == base && !a.Legacy()
  {
    var s := a.transportUrl;
    assert OccursAt(s, ManifestPath, |base|);
    forall j | 0 <= j < |base|
      ensures !OccursAt(s, ManifestPath, j)
    {
      if j + |ManifestPath| <= |base| {
        assert !OccursAt(base, ManifestPath, j);
        assert s[j..j + |ManifestPath|] == base[j..j + |ManifestPath|];
      } else {
        NoStraddle(base, j);
      }
    }
    var f := Find(s, ManifestPath);
    assert f.Some? && f.value == |base|;
    assert s[|s| - 13..] == "manifest.json";
  }

  /** A transport URL ending in "/manifest.json" is not legacy, and its base
      URL drops at least that suffix. */
  lemma ManifestSuffixNotLegacy(a: Addon)
    requires EndsWith(a.transportUrl, ManifestPath)
    ensures !a.Legacy()
    ensures |a.BaseUrl()| <= |a.transportUrl| - |ManifestPath|
  {
    var s := a.transportUrl;
    var i := |s| - |ManifestPath|;
    assert OccursAt(s, ManifestPath, i);
    assert s[|s| - 13..] == s[i..][1..];
  }
}
