/** The assumptions on a bundle can be met: manifests have an injective rendering with a reader, and a project
    without any projected file has a safe plan. */
module ManifestEncodings {
  import opened Disks
  import opened Options
  import opened Paths
  import opened Sorting
  import opened AgentStaging
  import opened Encodings
  import opened AgentPlan
  import opened AgentPlanFacts

  // ---------- The parts of a manifest ----------

  function OfClient(c: Client): Bytes { if c == Claude then [0] else [1] }

  function OfChecksum(c: Checksum): Bytes {
    match c
    case Hex(digest) => [0] + OfBytes(digest.preimage)
    case Text(text) => [1] + OfString(text)
  }

  function OfFile(f: ManagedFile): Bytes {
    OfPath(f.path) + (OfClient(f.client) + OfChecksum(f.sha256))
  }

  function OfManifest(m: Manifest): Bytes {
    OfNat(m.schemaVersion) +
    (OfString(m.mincoVersion) + (OfString(m.bundleDigest) + (OfSeq(m.clients, OfClient) + OfSeq(m.files, OfFile))))
  }

  lemma ClientsEnd()
    ensures Free(OfClient)
  {
    forall x, y, s, t | OfClient(x) + s == OfClient(y) + t ensures x == y && s == t {
      SameHead(OfClient(x)[0], s, OfClient(y)[0], t);
    }
  }

  lemma ChecksumsEnd()
    ensures Free(OfChecksum)
  {
    BytesEnd();
    StringsEnd();
    forall x, y, s, t | OfChecksum(x) + s == OfChecksum(y) + t ensures x == y && s == t {
      var u := if x.Hex? then OfBytes(x.digest.preimage) else OfString(x.text);
      var v := if y.Hex? then OfBytes(y.digest.preimage) else OfString(y.text);
      Regroup([OfChecksum(x)[0]], u, s);
      Regroup([OfChecksum(y)[0]], v, t);
      SameHead(OfChecksum(x)[0], u + s, OfChecksum(y)[0], v + t);
      if x.Hex? {
        FreeAt(OfBytes, x.digest.preimage, y.digest.preimage, s, t);
      }
    }
  }

  lemma FilesEnd()
    ensures Free(OfFile)
  {
    StringsEnd();
    ClientsEnd();
    ChecksumsEnd();
    hide OfString, OfClient, OfChecksum;
    forall x, y, s, t | OfFile(x) + s == OfFile(y) + t ensures x == y && s == t {
      FileText(x, s);
      FileText(y, t);
      SeqEnds(OfString, x.path, y.path, OfClient(x.client) + (OfChecksum(x.sha256) + s),
        OfClient(y.client) + (OfChecksum(y.sha256) + t));
    }
  }

  lemma FileText(f: ManagedFile, s: Bytes)
    ensures OfFile(f) + s == OfPath(f.path) + (OfClient(f.client) + (OfChecksum(f.sha256) + s))
  {
    Regroup(OfPath(f.path), OfClient(f.client) + OfChecksum(f.sha256), s);
    Regroup(OfClient(f.client), OfChecksum(f.sha256), s);
  }

  lemma ManifestsDiffer(m: Manifest, n: Manifest)
    requires OfManifest(m) == OfManifest(n)
    ensures m == n
  {
    StringsEnd();
    ClientsEnd();
    FilesEnd();
    hide Free, OfString, OfClient, OfFile;
    var ms, ns := OfSeq(m.files, OfFile), OfSeq(n.files, OfFile);
    var mc, nc := OfSeq(m.clients, OfClient) + ms, OfSeq(n.clients, OfClient) + ns;
    NatEnds(m.schemaVersion, n.schemaVersion, OfString(m.mincoVersion) + (OfString(m.bundleDigest) + mc),
      OfString(n.mincoVersion) + (OfString(n.bundleDigest) + nc));
    FreeAt(OfString, m.mincoVersion, n.mincoVersion, OfString(m.bundleDigest) + mc, OfString(n.bundleDigest) + nc);
    FreeAt(OfString, m.bundleDigest, n.bundleDigest, mc, nc);
    SeqEnds(OfClient, m.clients, n.clients, ms, ns);
    assert ms + [] == ms && ns + [] == ns;
    SeqEnds(OfFile, m.files, n.files, [], []);
  }

  // ---------- Bundles and plans ----------

  ghost function Read(data: Bytes): (r: Option<Manifest>)
    ensures forall m :: OfManifest(m) == data ==> r == Some(m)
  {
    if m :| OfManifest(m) == data then
      assert forall n :: OfManifest(n) == data ==> n == m by {
        forall n | OfManifest(n) == data ensures n == m { ManifestsDiffer(m, n); }
      }
      Some(m)
    else None
  }

  /** Whatever a bundle ships, there is a way to write and read its manifests. */
  lemma BundlesExist(assets: seq<Asset>, bridge: Bytes) returns (b: Bundle)
    requires DistinctBy(assets, AssetPath) && forall a :: a in assets ==> a.path != [] && NoSlash(a.path)
    ensures ValidBundle(b) && b.assets == assets && b.bridge == bridge
  {
    b := Bundle("", "", assets, bridge, OfManifest, (data: Bytes) => Read(data));
  }

  /** Where nothing was installed and nothing is in the way, the plan is safe, for every client. */
  lemma FreshProjectsAreSafe(b: Bundle, tree: Tree, target: Target)
    requires ValidBundle(b) && Inspect(tree, MANIFEST_PATH).Missing? && !Inspect(tree, AGENTS_FILE).Unsafe?
    requires forall f :: Desired(b, target, f) ==> Inspect(tree, f.path).Missing?
    ensures PlanFor(b, tree, target).safe
  {
    SafePlans(b, tree, target);
    assert Records(b, tree) == [];
    hide ValidBundle, PlanFor, Desired;
    forall f | Takes(b, tree, target, f) ensures ConflictAt(b, tree, f) == [] {
      TakenIsDesired(b, tree, target, f);
    }
  }
}
