/**
 * Publishing a provider version (publish/internal/publisher/publisher.go) to the registry that checks every upload
 * (services/terrapod/services/registry_provider_service.py).
 */
module Publisher {
  import opened Manifest
  import opened Network
  import opened Text
  import RC = RetryClient

  // ── Names ───────────────────────────────────────────────────────────────────

  function IndexOf(s: string, c: char): (n: nat)
    ensures n <= |s| && c !in s[..n] && (n < |s| ==> s[n] == c)
  {
    if s == "" || s[0] == c then 0 else
    var n := 1 + IndexOf(s[1..], c);
    assert s[..n] == [s[0]] + s[1..][..n - 1];
    n
  }

  datatype Platform = Platform(goos: string, goarch: string)

  /** "<goos>/<goarch>", split at the first slash, both parts non-empty. */
  function SplitPlatform(s: string): Option<Platform> {
    var n := IndexOf(s, '/');
    if 0 < n < |s| - 1 then Some(Platform(s[..n], s[n + 1..])) else None
  }

  function ZipName(name: string, version: string, p: Platform): string {
    "terraform-provider-" + name + "_" + version + "_" + p.goos + "_" + p.goarch + ".zip"
  }

  lemma SplitExactly(s: string, p: Platform)
    ensures SplitPlatform(s) == Some(p)
            <==> p.goos != "" && p.goarch != "" && '/' !in p.goos && s == p.goos + "/" + p.goarch
  {
    var n := IndexOf(s, '/');
    if p.goos != "" && p.goarch != "" && '/' !in p.goos && s == p.goos + "/" + p.goarch {
      assert s[..|p.goos|] == p.goos && s[|p.goos|] == '/' && s[|p.goos| + 1..] == p.goarch;
      IndexIs(s, '/', |p.goos|);
    }
  }

  lemma OneZipName()
    ensures ZipName("acme", "1.0", Platform("linux", "arm64")) == "terraform-provider-acme_1.0_linux_arm64.zip"
  {
  }

  lemma SplitInjective(s: string, t: string)
    requires SplitPlatform(s).Some? && SplitPlatform(s) == SplitPlatform(t)
    ensures s == t
  {
    var p := SplitPlatform(s).value;
    assert s == p.goos + "/" + p.goarch && t == p.goos + "/" + p.goarch;
  }

  /** Platforms whose goos has no underscore have pairwise distinct file names. */
  lemma ZipNamesDistinct(name: string, version: string, s: string, t: string)
    requires SplitPlatform(s).Some? && SplitPlatform(t).Some? && s != t
    requires '_' !in SplitPlatform(s).value.goos && '_' !in SplitPlatform(t).value.goos
    ensures ZipName(name, version, SplitPlatform(s).value) != ZipName(name, version, SplitPlatform(t).value)
  {
    var p, q := SplitPlatform(s).value, SplitPlatform(t).value;
    var a, b := ZipName(name, version, p), ZipName(name, version, q);
    if a == b {
      var pre := "terraform-provider-" + name + "_" + version + "_";
      var x, y := p.goos + ['_'] + (p.goarch + ".zip"), q.goos + ['_'] + (q.goarch + ".zip");
      assert a == pre + x && b == pre + y;
      assert a[|pre|..] == x && b[|pre|..] == y;
      SameSplit(x, p.goos, p.goarch + ".zip", q.goos, q.goarch + ".zip", '_');
      assert p.goarch == (p.goarch + ".zip")[..|p.goarch|] && q.goarch == (q.goarch + ".zip")[..|q.goarch|];
      SplitInjective(s, t);
    }
  }

  lemma IndexIs(s: string, c: char, n: nat)
    requires n < |s| && s[n] == c && c !in s[..n]
    ensures IndexOf(s, c) == n
  {
  }

  /** A string splits in one way only at its first `c`. */
  lemma SameSplit(s: string, a: string, b: string, a': string, b': string, c: char)
    requires c !in a && c !in a' && s == a + [c] + b && s == a' + [c] + b'
    ensures a == a' && b == b'
  {
    assert s[..|a|] == a && s[|a|] == c && s[|a| + 1..] == b;
    assert s[..|a'|] == a' && s[|a'|] == c && s[|a'| + 1..] == b';
    IndexIs(s, c, |a|);
    IndexIs(s, c, |a'|);
  }

  /** Without that condition two platforms can share a file name. */
  lemma UnderscoresCollide(name: string, version: string)
    ensures SplitPlatform("a_b/c") == Some(Platform("a_b", "c")) && SplitPlatform("a/b_c") == Some(Platform("a", "b_c"))
    ensures ZipName(name, version, Platform("a_b", "c")) == ZipName(name, version, Platform("a", "b_c"))
  {
    var s, t := "a_b/c", "a/b_c";
    assert s[..3] == "a_b" && s[3] == '/' && s[4..] == "c" && t[..1] == "a" && t[1] == '/' && t[2..] == "b_c";
    IndexIs(s, '/', 3);
    IndexIs(t, '/', 1);
    var pre := "terraform-provider-" + name + "_" + version + "_";
    assert ZipName(name, version, Platform("a_b", "c")) == pre + ("a_b" + "_" + "c" + ".zip");
    assert ZipName(name, version, Platform("a", "b_c")) == pre + ("a" + "_" + "b_c" + ".zip");
    assert "a_b" + "_" + "c" == "a" + "_" + "b_c";
  }

  // ── The registry's side ─────────────────────────────────────────────────────

  datatype Upload = Shasums(text: string) | Signature(sig: Bytes) | Zip(platform: Platform, zip: Bytes)

  /** One provider version, as the server stores it; the signature is the last one that was verified. */
  datatype Version = Version(manifest: Option<string>, sig: Option<Bytes>, zips: map<Platform, Bytes>)

  /** `valid` holds of a manifest and a signature over it by a registered key. */
  datatype Context = Context(name: string, version: string, hash: Hash, valid: (string, Bytes) -> bool)

  /** What a parameter of a route matches: one segment of the path. */
  predicate IsSegment(s: string) {
    s != "" && '/' !in s
  }

  /** The paths "<name>/versions/<version>/..." reach their routes. */
  predicate Addressed(c: Context) {
    IsSegment(c.name) && IsSegment(c.version)
  }

  /** The path ".../platforms/<goos>/<goarch>" reaches its route. */
  predicate Routed(p: Platform) {
    IsSegment(p.goos) && IsSegment(p.goarch)
  }

  predicate HasRoute(c: Context, u: Upload) {
    Addressed(c) && (u.Zip? ==> Routed(u.platform))
  }

  predicate HasBody(u: Upload) {
    match u
    case Shasums(text) => text != ""
    case Signature(sig) => sig != []
    case Zip(_, zip) => zip != []
  }

  /** The server's checks. */
  predicate Accepts(c: Context, v: Version, u: Upload) {
    HasRoute(c, u) && HasBody(u) &&
    match u
    case Shasums(_) => true
    case Signature(sig) => v.manifest.Some? && c.valid(v.manifest.value, sig)
    case Zip(p, zip) =>
      v.sig.Some? && v.manifest.Some? &&
      var sums := Parse(false, v.manifest.value);
      var file := ZipName(c.name, c.version, p);
      file in sums && sums[file] == Hex(c.hash(zip))
  }

  function Store(v: Version, u: Upload): Version {
    match u
    case Shasums(text) => v.(manifest := Some(text))
    case Signature(sig) => v.(sig := Some(sig))
    case Zip(p, zip) => v.(zips := v.zips[p := zip])
  }

  function StoreAll(v: Version, us: seq<Upload>): Version {
    if us == [] then v else Store(StoreAll(v, us[..|us| - 1]), us[|us| - 1])
  }

  /** The PUT handler of an upload: 404 without a route, 400 without a body, 422 for a failed check. */
  function Receive(c: Context, u: Upload): Handler<Version> {
    Handler((v: Version) => if Accepts(c, v, u) then Store(v, u) else v,
            (v: Version) => if Accepts(c, v, u) then 200
                            else if !HasRoute(c, u) then 404 else if !HasBody(u) then 400 else 422)
  }

  /** A path of single segments has a route, and nothing else has one. */
  lemma RoutesExactly(c: Context, u: Upload)
    ensures HasRoute(c, u) <==>
              && c.name != "" && '/' !in c.name && c.version != "" && '/' !in c.version
              && (u.Zip? ==> u.platform.goos != "" && '/' !in u.platform.goos
                             && u.platform.goarch != "" && '/' !in u.platform.goarch)
  {
  }

  /** The order that the server enforces: a signature after the manifest it is over, a zip after a signature. */
  lemma OrderIsEnforced(c: Context, v: Version, u: Upload)
    requires Accepts(c, v, u)
    ensures Receive(c, u).status(v) == 200
    ensures u.Shasums? ==> u.text != ""
    ensures u.Signature? ==> u.sig != [] && v.manifest.Some? && c.valid(v.manifest.value, u.sig)
    ensures u.Zip? ==>
              && u.zip != [] && v.sig.Some? && v.manifest.Some?
              && ZipName(c.name, c.version, u.platform) in Parse(false, v.manifest.value)
              && Parse(false, v.manifest.value)[ZipName(c.name, c.version, u.platform)] == Hex(c.hash(u.zip))
  {
  }

  /** An upload stores what it brings, and leaves the rest. */
  lemma StoredExactly(v: Version, text: string, sig: Bytes, p: Platform, zip: Bytes)
    ensures Store(v, Shasums(text)) == Version(Some(text), v.sig, v.zips)
    ensures Store(v, Signature(sig)) == Version(v.manifest, Some(sig), v.zips)
    ensures Store(v, Zip(p, zip)) == Version(v.manifest, v.sig, v.zips[p := zip])
  {
  }

  /** An upload that the client replays leaves what one leaves. */
  lemma ReceiveIsIdempotent(c: Context, u: Upload)
    ensures Idempotent(Receive(c, u))
  {
    forall v: Version ensures Receive(c, u).effect(Receive(c, u).effect(v)) == Receive(c, u).effect(v) {
      StoredIsAccepted(c, v, u);
    }
  }

  lemma StoredIsAccepted(c: Context, v: Version, u: Upload)
    ensures Accepts(c, v, u) ==> Accepts(c, Store(v, u), u) && Store(Store(v, u), u) == Store(v, u)
  {
  }

  // ── Trust ───────────────────────────────────────────────────────────────────

  /** The stored manifest is one that the stored signature is valid for. */
  predicate Trusted(c: Context, v: Version) {
    v.manifest.Some? && v.sig.Some? && c.valid(v.manifest.value, v.sig.value)
  }

  const FRESH := Version(None, None, map[])

  /** The index of the last manifest, and of the last signature, among these uploads. */
  function LastManifest(us: seq<Upload>): (r: Option<nat>)
    ensures r.Some? ==> r.value < |us| && us[r.value].Shasums?
  {
    if us == [] then None
    else if us[|us| - 1].Shasums? then Some(|us| - 1) else LastManifest(us[..|us| - 1])
  }

  function LastSignature(us: seq<Upload>): (r: Option<nat>)
    ensures r.Some? ==> r.value < |us| && us[r.value].Signature?
  {
    if us == [] then None
    else if us[|us| - 1].Signature? then Some(|us| - 1) else LastSignature(us[..|us| - 1])
  }

  /** No manifest followed the last signature, or only one that this signature is valid for as well. */
  predicate NotReplaced(c: Context, us: seq<Upload>) {
    var m, g := LastManifest(us), LastSignature(us);
    m.Some? && g.Some? && (m.value < g.value || c.valid(us[m.value].text, us[g.value].sig))
  }

  /** The version holds the last manifest and the last signature, which was valid for the manifest before it. */
  predicate Recorded(c: Context, v: Version, us: seq<Upload>) {
    var m, g := LastManifest(us), LastSignature(us);
    && v.manifest == (if m.None? then None else Some(us[m.value].text))
    && v.sig == (if g.None? then None else Some(us[g.value].sig))
    && (g.Some? ==> m.Some? && (m.value < g.value ==> c.valid(us[m.value].text, us[g.value].sig)))
  }

  lemma RecordedMore(c: Context, v: Version, us: seq<Upload>, u: Upload)
    requires Recorded(c, v, us) && (u.Signature? ==> Accepts(c, v, u))
    ensures Recorded(c, Store(v, u), us + [u])
  {
    assert (us + [u])[..|us|] == us;
  }

  lemma LastAccepted(c: Context, v: Version, us: seq<Upload>, n: nat)
    requires |us| == n + 1 && AcceptedUpTo(c, v, us, |us|)
    ensures Accepts(c, StoreAll(v, us[..n]), us[n])
  {
  }

  lemma StoreLast(v: Version, us: seq<Upload>, n: nat)
    requires |us| == n + 1
    ensures us == us[..n] + [us[n]] && StoreAll(v, us) == Store(StoreAll(v, us[..n]), us[n])
  {
  }

  lemma {:induction false} StoredLast(c: Context, us: seq<Upload>)
    requires AcceptedUpTo(c, FRESH, us, |us|)
    ensures Recorded(c, StoreAll(FRESH, us), us)
  {
    if us != [] {
      var n := |us| - 1;
      var before, last := us[..n], us[n];
      LastAccepted(c, FRESH, us, n);
      AcceptedPrefix(c, FRESH, us, n);
      StoredLast(c, before);
      RecordedMore(c, StoreAll(FRESH, before), before, last);
      StoreLast(FRESH, us, n);
    }
  }

  lemma AcceptedPrefix(c: Context, v: Version, us: seq<Upload>, n: nat)
    requires n <= |us| && AcceptedUpTo(c, v, us, |us|)
    ensures AcceptedUpTo(c, v, us[..n], n)
  {
    forall i | 0 <= i < n ensures Accepts(c, StoreAll(v, us[..n][..i]), us[..n][i]) {
      assert us[..n][..i] == us[..i];
    }
  }

  /**
   * "Binaries are never accepted under an untrusted manifest", with its exact condition: over every history of accepted
   * uploads, the manifest that the next zip is checked against is a trusted one if and only if the last signature has
   * not been followed by a manifest that it does not cover.
   */
  lemma TrustedExactly(c: Context, us: seq<Upload>, zip: Upload)
    requires AcceptedUpTo(c, FRESH, us, |us|) && zip.Zip? && Accepts(c, StoreAll(FRESH, us), zip)
    ensures Trusted(c, StoreAll(FRESH, us)) <==> NotReplaced(c, us)
  {
    StoredLast(c, us);
  }

  /** A history that ends in a zip accepted under a manifest that nobody signed. */
  lemma UnsignedManifestTrusted(c: Context, signed: string, sig: Bytes, p: Platform, zip: Bytes)
    returns (us: seq<Upload>)
    requires c.valid(signed, sig) && HasBody(Shasums(signed)) && HasBody(Signature(sig))
    requires HasRoute(c, Zip(p, zip)) && HasBody(Zip(p, zip)) && NoSpace(ZipName(c.name, c.version, p))
    requires !c.valid(ManifestOf(c.hash, map[ZipName(c.name, c.version, p) := zip]), sig)
    ensures AcceptedUpTo(c, FRESH, us, |us|)
    ensures Accepts(c, StoreAll(FRESH, us), Zip(p, zip)) && !Trusted(c, StoreAll(FRESH, us))
  {
    var file := ZipName(c.name, c.version, p);
    var files := map[file := zip];
    us := [Shasums(signed), Signature(sig), Shasums(ManifestOf(c.hash, files))];
    StoreMore(FRESH, us, 0);
    StoreMore(FRESH, us, 1);
    StoreMore(FRESH, us, 2);
    assert us[..0] == [] && us[..3] == us;
    assert |file| > 0;
    RoundTrip(false, c.hash, files);
    EmptyManifest(c.hash, files);
    assert file in files;
    assert Accepts(c, StoreAll(FRESH, us[..0]), us[0]);
  }

  // ── One upload ──────────────────────────────────────────────────────────────

  /** What the network does to the attempts of each upload, and when the context ends a backoff. */
  datatype Schedule = Schedule(maxRetries: nat, net: nat -> nat -> RC.Attempt, cancelled: nat -> nat -> bool)

  /** A fault never answers an upload with a success status. */
  ghost predicate Honest(n: Schedule) {
    forall i: nat :: RC.Honest(n.net(i), RC.Success)
  }

  /** Every first attempt arrives and is answered. */
  ghost predicate Clear(n: Schedule) {
    forall i: nat {:trigger n.net(i)} :: n.net(i)(0) == RC.Sent(Normal, RC.Arrives)
  }

  class Registry {
    var v: Version

    constructor (v: Version)
      ensures this.v == v
    {
      this.v := v;
    }

    /**
     * The i-th upload, through the client's retry loop. A nil result means that the registry accepted and stored it;
     * any other one, that it did so or that nothing happened.
     */
    method Put(c: Context, u: Upload, n: Schedule, i: nat) returns (r: RC.Result)
      requires Honest(n)
      modifies this
      ensures r == RC.Nil ==> Accepts(c, old(v), u) && v == Store(old(v), u)
      ensures v == old(v) || (Accepts(c, old(v), u) && v == Store(old(v), u))
      ensures Clear(n) ==>
                r == if Accepts(c, old(v), u) then RC.Nil
                     else if !HasRoute(c, u) then RC.TypedError(RC.NotFound)
                     else if !HasBody(u) then RC.TypedError(RC.Api(400))
                     else RC.TypedError(RC.Validation)
    {
      ghost var h, v0 := Receive(c, u), v;
      var x := RC.Do(n.maxRetries, "PUT", n.net(i), n.cancelled(i), Receive(c, u), v);
      RC.MethodClasses("PUT");
      ReceiveIsIdempotent(c, u);
      RC.DoneByHandler(n.maxRetries, n.net(i), n.cancelled(i), h, v0);
      StoredIsAccepted(c, v0, u);
      if Clear(n) { AnsweredAtOnce(n.maxRetries, n.net(i), n.cancelled(i), h, v0); }
      v := x.server;
      r := RC.ResultOf(x.outcome);
    }
  }

  lemma AnsweredAtOnce(maxRetries: nat, net: nat -> RC.Attempt, cancelled: nat -> bool, h: Handler<Version>, v: Version)
    requires net(0) == RC.Sent(Normal, RC.Arrives) && !RC.RetryableStatus(h.status(v))
    ensures RC.Call(maxRetries, true, net, cancelled, h, v).outcome == RC.Response(h.status(v))
  {
  }

  // ── The publisher's side ────────────────────────────────────────────────────

  /** `pack.ProviderZip` for one provider version: the archive it builds of a binary, if it does. */
  type Packer = (string, Bytes) -> Option<Bytes>

  predicate Splits(platforms: seq<string>) {
    forall p :: p in platforms ==> SplitPlatform(p).Some?
  }

  /** Each platform has a binary, splits, and can be packed. */
  predicate Ready(pack: Packer, binaries: map<string, Bytes>, platforms: seq<string>) {
    forall p :: p in platforms ==>
      p in binaries && SplitPlatform(p).Some? && pack(SplitPlatform(p).value.goos, binaries[p]).Some?
  }

  function FileName(c: Context, platform: string): string
    requires SplitPlatform(platform).Some?
  {
    ZipName(c.name, c.version, SplitPlatform(platform).value)
  }

  function ZipOf(pack: Packer, binaries: map<string, Bytes>, platform: string): Bytes
    requires Ready(pack, binaries, [platform])
  {
    assert platform in [platform];
    pack(SplitPlatform(platform).value.goos, binaries[platform]).value
  }

  predicate Enumerates(order: seq<string>, binaries: map<string, Bytes>) {
    (forall p :: p in order ==> p in binaries) && forall p :: p in binaries ==> p in order
  }

  /** The `files` map after the first loop has seen `order`: a later platform overwrites an earlier one of its name. */
  function FilesOf(c: Context, pack: Packer, binaries: map<string, Bytes>, order: seq<string>): Files
    requires Ready(pack, binaries, order)
  {
    if order == [] then map[] else
    var last := order[|order| - 1];
    assert last in order;
    FilesOf(c, pack, binaries, order[..|order| - 1])[FileName(c, last) := ZipOf(pack, binaries, last)]
  }

  function FileNames(c: Context, order: seq<string>): seq<string>
    requires Splits(order)
  {
    seq(|order|, i requires 0 <= i < |order| => assert order[i] in order; FileName(c, order[i]))
  }

  lemma {:induction false} FileNamesAreKeys(c: Context, pack: Packer, binaries: map<string, Bytes>, order: seq<string>)
    requires Ready(pack, binaries, order)
    ensures forall n :: n in FileNames(c, order) <==> n in FilesOf(c, pack, binaries, order)
  {
    if order != [] {
      var k := |order| - 1;
      assert order[k] in order;
      FileNamesAreKeys(c, pack, binaries, order[..k]);
      assert FileNames(c, order) == FileNames(c, order[..k]) + [FileName(c, order[k])];
    }
  }

  function ZipUploads(pack: Packer, binaries: map<string, Bytes>, order: seq<string>): seq<Upload>
    requires Ready(pack, binaries, order)
  {
    seq(|order|, i requires 0 <= i < |order| =>
      assert order[i] in order; Zip(SplitPlatform(order[i]).value, ZipOf(pack, binaries, order[i])))
  }

  /** Manifest, then signature, then the zips. */
  function Plan(manifest: string, sig: Bytes, zips: seq<Upload>): seq<Upload> {
    [Shasums(manifest), Signature(sig)] + zips
  }

  /** The whole upload sequence; the map is iterated in one order for the manifest and in another for the zips. */
  ghost function Publication(c: Context, pack: Packer, binaries: map<string, Bytes>, order: seq<string>,
                             order': seq<string>, sig: Bytes): seq<Upload>
    requires Ready(pack, binaries, order) && Ready(pack, binaries, order')
  {
    Plan(ManifestOf(c.hash, FilesOf(c, pack, binaries, order)), sig, ZipUploads(pack, binaries, order'))
  }

  /** The first n uploads were accepted, one after the other. */
  ghost predicate AcceptedUpTo(c: Context, v: Version, plan: seq<Upload>, n: nat)
    requires n <= |plan|
  {
    forall i :: 0 <= i < n ==> Accepts(c, StoreAll(v, plan[..i]), plan[i])
  }

  lemma StoreMore(v: Version, plan: seq<Upload>, n: nat)
    requires n < |plan|
    ensures StoreAll(v, plan[..n + 1]) == Store(StoreAll(v, plan[..n]), plan[n])
  {
    assert plan[..n + 1][..n] == plan[..n];
  }

  datatype Result = Published | NoBinaries | InvalidPlatform | ZipFailed | SigningFailed | UploadFailed(why: RC.Result)

  /** What the first loop says of the first platform it cannot handle. */
  predicate Rejects(pack: Packer, binaries: map<string, Bytes>, order: seq<string>, r: Result) {
    exists i :: && 0 <= i < |order| && order[i] in binaries && Ready(pack, binaries, order[..i])
                && var p := SplitPlatform(order[i]);
                if p.None? then r == InvalidPlatform
                else pack(p.value.goos, binaries[order[i]]).None? && r == ZipFailed
  }

  lemma OneMoreReady(pack: Packer, binaries: map<string, Bytes>, order: seq<string>, i: nat)
    requires i < |order| && Ready(pack, binaries, order[..i]) && Ready(pack, binaries, [order[i]])
    ensures Ready(pack, binaries, order[..i + 1])
  {
    assert order[..i + 1] == order[..i] + [order[i]];
    assert order[i] in [order[i]];
  }

  /** The first loop: both maps, or the first platform that does not split or cannot be packed. */
  method BuildZips(c: Context, pack: Packer, binaries: map<string, Bytes>, order: seq<string>)
    returns (err: Option<Result>, zips: map<string, Bytes>, files: Files)
    requires Enumerates(order, binaries)
    ensures err.None? <==> Ready(pack, binaries, order)
    ensures err.Some? ==> Rejects(pack, binaries, order, err.value)
    ensures err.None? ==> files == FilesOf(c, pack, binaries, order)
    ensures err.None? ==>
              forall p :: p in order ==> p in zips && Ready(pack, binaries, [p]) && zips[p] == ZipOf(pack, binaries, p)
  {
    err, zips, files := None, map[], map[];
    for i := 0 to |order|
      invariant Ready(pack, binaries, order[..i])
      invariant files == FilesOf(c, pack, binaries, order[..i])
      invariant forall p :: p in order[..i] ==>
                  p in zips && Ready(pack, binaries, [p]) && zips[p] == ZipOf(pack, binaries, p)
    {
      assert order[i] in order;
      var p := SplitPlatform(order[i]);
      if p.None? { return Some(InvalidPlatform), map[], map[]; }
      var z := pack(p.value.goos, binaries[order[i]]);
      if z.None? { return Some(ZipFailed), map[], map[]; }
      OneMoreReady(pack, binaries, order, i);
      assert order[..i + 1] == order[..i] + [order[i]] && order[..i + 1][..i] == order[..i];
      zips := zips[order[i] := z.value];
      files := files[ZipName(c.name, c.version, p.value) := z.value];
    }
    assert order[..|order|] == order;
  }

  /** The registry holds the first `sent` uploads, all accepted; and perhaps the next, whose answer was lost. */
  ghost predicate HoldsUpTo(c: Context, before: Version, plan: seq<Upload>, sent: nat, after: Version)
    requires sent <= |plan|
  {
    && AcceptedUpTo(c, before, plan, sent)
    && (after == StoreAll(before, plan[..sent])
        || (sent < |plan| && AcceptedUpTo(c, before, plan, sent + 1) && after == StoreAll(before, plan[..sent + 1])))
  }

  /** The uploads, in order, until one fails; `sent` counts those answered with success. */
  method UploadAll(c: Context, plan: seq<Upload>, n: Schedule, registry: Registry) returns (r: Result, sent: nat)
    requires Honest(n)
    modifies registry
    ensures sent <= |plan| && HoldsUpTo(c, old(registry.v), plan, sent, registry.v)
    ensures r == Published <==> sent == |plan|
    ensures r == Published || r.UploadFailed?
    ensures Clear(n) && AcceptedUpTo(c, old(registry.v), plan, |plan|) ==> r == Published
  {
    sent := 0;
    while sent < |plan|
      invariant sent <= |plan|
      invariant registry.v == StoreAll(old(registry.v), plan[..sent]) && AcceptedUpTo(c, old(registry.v), plan, sent)
    {
      StoreMore(old(registry.v), plan, sent);
      var result := registry.Put(c, plan[sent], n, sent);
      if result != RC.Nil { return UploadFailed(result), sent; }
      sent := sent + 1;
    }
    r := Published;
  }

  /** `order` and `order'` are the two iteration orders of the map, `sign` the publisher's key. */
  method PublishProvider(c: Context, pack: Packer, binaries: map<string, Bytes>, order: seq<string>,
                         order': seq<string>, sign: string -> Option<Bytes>, n: Schedule, registry: Registry)
    returns (r: Result, sent: nat)
    requires Enumerates(order, binaries) && Enumerates(order', binaries) && Honest(n)
    modifies registry
    ensures r == NoBinaries <==> order == []
    ensures r in {InvalidPlatform, ZipFailed} <==> order != [] && !Ready(pack, binaries, order)
    ensures r in {InvalidPlatform, ZipFailed} ==> Rejects(pack, binaries, order, r)
    ensures r in {NoBinaries, InvalidPlatform, ZipFailed, SigningFailed} ==> registry.v == old(registry.v) && sent == 0
    ensures r == Published || r.UploadFailed? ==>
              && Ready(pack, binaries, order) && Ready(pack, binaries, order')
              && var sig := sign(ManifestOf(c.hash, FilesOf(c, pack, binaries, order)));
              && sig.Some?
              && var plan := Publication(c, pack, binaries, order, order', sig.value);
              && sent <= |plan| && HoldsUpTo(c, old(registry.v), plan, sent, registry.v)
              && (r == Published <==> sent == |plan|)
              && (Clear(n) && AcceptedUpTo(c, old(registry.v), plan, |plan|) ==> r == Published)
  {
    if |order| == 0 { return NoBinaries, 0; }
    var err, zips, files := BuildZips(c, pack, binaries, order);
    if err.Some? { return err.value, 0; }
    FileNamesAreKeys(c, pack, binaries, order);
    var manifest := SHA256SUMS(c.hash, files, FileNames(c, order));
    var sig := sign(manifest);
    if sig.None? { return SigningFailed, 0; }
    var uploads := CollectZips(pack, binaries, order', zips);
    r, sent := UploadAll(c, Plan(manifest, sig.value, uploads), n, registry);
  }

  /** The zips in the order of the second iteration. */
  method CollectZips(pack: Packer, binaries: map<string, Bytes>, order: seq<string>, zips: map<string, Bytes>)
    returns (uploads: seq<Upload>)
    requires forall p :: p in order ==> p in zips && Ready(pack, binaries, [p]) && zips[p] == ZipOf(pack, binaries, p)
    ensures Ready(pack, binaries, order) && uploads == ZipUploads(pack, binaries, order)
  {
    uploads := [];
    for i := 0 to |order|
      invariant Ready(pack, binaries, order[..i])
      invariant uploads == ZipUploads(pack, binaries, order[..i])
    {
      assert order[i] in order && order[i] in [order[i]];
      OneMoreReady(pack, binaries, order, i);
      assert order[..i + 1] == order[..i] + [order[i]];
      uploads := uploads + [Zip(SplitPlatform(order[i]).value, zips[order[i]])];
    }
    assert order[..|order|] == order;
  }

  // ── Coverage ────────────────────────────────────────────────────────────────

  /** File names without whitespace, and equal digests wherever two platforms share a file name. */
  ghost predicate Coverable(c: Context, pack: Packer, binaries: map<string, Bytes>, order: seq<string>)
    requires Ready(pack, binaries, order)
  {
    && NamesUnspaced(c, order)
    && forall p, q :: p in order && q in order && FileName(c, p) == FileName(c, q) ==>
         SameDigest(c, pack, binaries, p, q)
  }

  predicate NamesUnspaced(c: Context, order: seq<string>)
    requires Splits(order)
  {
    forall p :: p in order ==> NoSpace(FileName(c, p))
  }

  predicate SameDigest(c: Context, pack: Packer, binaries: map<string, Bytes>, p: string, q: string)
    requires Ready(pack, binaries, [p]) && Ready(pack, binaries, [q])
  {
    c.hash(ZipOf(pack, binaries, p)) == c.hash(ZipOf(pack, binaries, q))
  }

  lemma {:induction false} FilesOfValues(c: Context, pack: Packer, binaries: map<string, Bytes>, order: seq<string>)
    requires Ready(pack, binaries, order)
    ensures var files := FilesOf(c, pack, binaries, order);
            && (forall p :: p in order ==> FileName(c, p) in files)
            && forall n :: n in files ==>
                 exists p :: p in order && FileName(c, p) == n && files[n] == ZipOf(pack, binaries, p)
  {
    if order != [] {
      var k := |order| - 1;
      assert order[k] in order && order == order[..k] + [order[k]];
      FilesOfValues(c, pack, binaries, order[..k]);
    }
  }

  /** The planned manifest lists the zip of this platform with its digest. */
  ghost predicate Covered(c: Context, pack: Packer, binaries: map<string, Bytes>, order: seq<string>, p: string)
    requires Ready(pack, binaries, order) && p in order
  {
    var sums := Parse(false, ManifestOf(c.hash, FilesOf(c, pack, binaries, order)));
    FileName(c, p) in sums && sums[FileName(c, p)] == Hex(c.hash(ZipOf(pack, binaries, p)))
  }

  lemma SpacedIsNotCovered(c: Context, pack: Packer, binaries: map<string, Bytes>, order: seq<string>, p: string)
    requires Ready(pack, binaries, order) && p in order && !NoSpace(FileName(c, p))
    ensures !Covered(c, pack, binaries, order, p)
  {
    ParsedNames(false, Lines(ManifestOf(c.hash, FilesOf(c, pack, binaries, order))));
  }

  lemma UnspacedManifest(c: Context, pack: Packer, binaries: map<string, Bytes>, order: seq<string>)
    requires Ready(pack, binaries, order) && NamesUnspaced(c, order)
    ensures var files := FilesOf(c, pack, binaries, order);
            Parse(false, ManifestOf(c.hash, files)) == Expected(c.hash, files)
  {
    var files := FilesOf(c, pack, binaries, order);
    FilesOfValues(c, pack, binaries, order);
    forall n | n in files ensures Readable(false, n) {
      var p :| p in order && FileName(c, p) == n;
      assert |n| > 0;
    }
    RoundTrip(false, c.hash, files);
  }

  lemma CoveredByDigest(c: Context, pack: Packer, binaries: map<string, Bytes>, order: seq<string>, p: string)
    requires Ready(pack, binaries, order) && NamesUnspaced(c, order) && p in order
    ensures var files := FilesOf(c, pack, binaries, order);
            FileName(c, p) in files
            && (Covered(c, pack, binaries, order, p)
                <==> c.hash(files[FileName(c, p)]) == c.hash(ZipOf(pack, binaries, p)))
  {
    var files := FilesOf(c, pack, binaries, order);
    FilesOfValues(c, pack, binaries, order);
    UnspacedManifest(c, pack, binaries, order);
    if Covered(c, pack, binaries, order, p) {
      HexInjective(c.hash(files[FileName(c, p)]), c.hash(ZipOf(pack, binaries, p)));
    }
  }

  lemma CoverableIsCovered(c: Context, pack: Packer, binaries: map<string, Bytes>, order: seq<string>, p: string)
    requires Ready(pack, binaries, order) && Coverable(c, pack, binaries, order) && p in order
    ensures Covered(c, pack, binaries, order, p)
  {
    var files := FilesOf(c, pack, binaries, order);
    FilesOfValues(c, pack, binaries, order);
    CoveredByDigest(c, pack, binaries, order, p);
    var q :| q in order && FileName(c, q) == FileName(c, p) && files[FileName(c, p)] == ZipOf(pack, binaries, q);
    assert SameDigest(c, pack, binaries, q, p);
  }

  lemma CoveredShareDigest(c: Context, pack: Packer, binaries: map<string, Bytes>, order: seq<string>, p: string,
                           q: string)
    requires Ready(pack, binaries, order) && NamesUnspaced(c, order) && p in order && q in order
    requires FileName(c, p) == FileName(c, q)
    requires Covered(c, pack, binaries, order, p) && Covered(c, pack, binaries, order, q)
    ensures SameDigest(c, pack, binaries, p, q)
  {
    CoveredByDigest(c, pack, binaries, order, p);
    CoveredByDigest(c, pack, binaries, order, q);
  }

  /**
   * The manifest covers every zip if and only if the file names have no whitespace and platforms that share one have
   * the same digest - in particular whenever the names are plain and no goos has an underscore.
   */
  lemma CoverageIsExact(c: Context, pack: Packer, binaries: map<string, Bytes>, order: seq<string>)
    requires Ready(pack, binaries, order)
    ensures (forall p :: p in order ==> Covered(c, pack, binaries, order, p)) <==> Coverable(c, pack, binaries, order)
  {
    if Coverable(c, pack, binaries, order) {
      forall p | p in order ensures Covered(c, pack, binaries, order, p) {
        CoverableIsCovered(c, pack, binaries, order, p);
      }
    } else if forall p :: p in order ==> Covered(c, pack, binaries, order, p) {
      forall p | p in order ensures NoSpace(FileName(c, p)) {
        if !NoSpace(FileName(c, p)) { SpacedIsNotCovered(c, pack, binaries, order, p); }
      }
      forall p, q | p in order && q in order && FileName(c, p) == FileName(c, q)
        ensures SameDigest(c, pack, binaries, p, q)
      {
        CoveredShareDigest(c, pack, binaries, order, p, q);
      }
    }
  }

  lemma PlainNamesAreCoverable(c: Context, pack: Packer, binaries: map<string, Bytes>, order: seq<string>)
    requires Ready(pack, binaries, order) && NamesUnspaced(c, order)
    requires forall p :: p in order ==> '_' !in SplitPlatform(p).value.goos
    ensures Coverable(c, pack, binaries, order)
  {
    forall p, q | p in order && q in order && FileName(c, p) == FileName(c, q) ensures p == q {
      if p != q { ZipNamesDistinct(c.name, c.version, p, q); }
    }
  }

  /** "linux/arm/v7" splits, is packed and signed, and has no route: its zip is a 404 behind an accepted manifest. */
  lemma ThreePartsAreNotRouted()
    ensures SplitPlatform("linux/arm/v7") == Some(Platform("linux", "arm/v7")) && !Routed(Platform("linux", "arm/v7"))
  {
    var s := "linux/arm/v7";
    assert s[..5] == "linux" && s[5] == '/' && s[6..] == "arm/v7";
    IndexIs(s, '/', 5);
    assert "arm/v7"[3] == '/';
  }

  // ── What the registry accepts ───────────────────────────────────────────────

  /** At least one platform, all of them with a route and an archive, and a manifest that covers every zip. */
  ghost predicate Publishable(c: Context, pack: Packer, binaries: map<string, Bytes>, order: seq<string>)
    requires Ready(pack, binaries, order)
  {
    && order != [] && Addressed(c)
    && (forall p :: p in order ==> Routed(SplitPlatform(p).value) && ZipOf(pack, binaries, p) != [])
    && Coverable(c, pack, binaries, order)
  }

  /** A version "1.0/rc1" has no route: nothing of such a publication is accepted, whatever the registry holds. */
  lemma SlashInVersionIsRefused(name: string, hash: Hash, valid: (string, Bytes) -> bool, v: Version, u: Upload)
    ensures !Accepts(Context(name, "1.0/rc1", hash, valid), v, u)
  {
    assert "1.0/rc1"[3] == '/';
  }

  /** What the registry holds while the zips go up: the planned manifest and its signature. */
  lemma {:induction false} PlanState(v: Version, manifest: string, sig: Bytes, zips: seq<Upload>, n: nat)
    requires 2 <= n <= |zips| + 2 && forall i :: 0 <= i < |zips| ==> zips[i].Zip?
    ensures var w := StoreAll(v, Plan(manifest, sig, zips)[..n]); w.sig == Some(sig) && w.manifest == Some(manifest)
  {
    var plan := Plan(manifest, sig, zips);
    StoreMore(v, plan, n - 1);
    if n == 2 {
      StoreMore(v, plan, 0);
      assert plan[..0] == [];
    } else {
      PlanState(v, manifest, sig, zips, n - 1);
      assert plan[n - 1] == zips[n - 3];
    }
  }

  /** In a publication every zip is checked against a trusted manifest, whatever the registry held before. */
  lemma PublishedUnderTrust(c: Context, v: Version, manifest: string, sig: Bytes, zips: seq<Upload>, n: nat)
    requires 2 <= n <= |zips| + 2 && (forall i :: 0 <= i < |zips| ==> zips[i].Zip?) && c.valid(manifest, sig)
    ensures Trusted(c, StoreAll(v, Plan(manifest, sig, zips)[..n]))
  {
    PlanState(v, manifest, sig, zips, n);
  }

  lemma FirstTwoAccepted(c: Context, v: Version, manifest: string, sig: Bytes, zips: seq<Upload>)
    requires c.valid(manifest, sig)
    ensures var plan := Plan(manifest, sig, zips);
            && (Accepts(c, StoreAll(v, plan[..0]), plan[0]) <==> Addressed(c) && manifest != "")
            && (Accepts(c, StoreAll(v, plan[..1]), plan[1]) <==> Addressed(c) && sig != [])
  {
  }

  lemma ZipAccepted(c: Context, pack: Packer, binaries: map<string, Bytes>, order: seq<string>, order': seq<string>,
                    sig: Bytes, v: Version, i: nat)
    requires Enumerates(order, binaries) && Enumerates(order', binaries)
    requires Ready(pack, binaries, order) && Ready(pack, binaries, order') && i < |order'|
    ensures order'[i] in order
    ensures var plan, p := Publication(c, pack, binaries, order, order', sig), order'[i];
            Accepts(c, StoreAll(v, plan[..i + 2]), plan[i + 2])
            <==> Addressed(c) && Routed(SplitPlatform(p).value) && ZipOf(pack, binaries, p) != []
                 && Covered(c, pack, binaries, order, p)
  {
    assert order'[i] in order' && order'[i] in binaries;
    var manifest, zips := ManifestOf(c.hash, FilesOf(c, pack, binaries, order)), ZipUploads(pack, binaries, order');
    PlanState(v, manifest, sig, zips, i + 2);
    assert Plan(manifest, sig, zips)[i + 2] == zips[i];
  }

  lemma ManifestOfNone(c: Context, pack: Packer, binaries: map<string, Bytes>, order: seq<string>)
    requires Ready(pack, binaries, order)
    ensures ManifestOf(c.hash, FilesOf(c, pack, binaries, order)) == "" <==> order == []
  {
    EmptyManifest(c.hash, FilesOf(c, pack, binaries, order));
    FilesOfValues(c, pack, binaries, order);
    if order != [] { assert order[0] in order; }
  }

  lemma AcceptedMeansPublishable(c: Context, pack: Packer, binaries: map<string, Bytes>, order: seq<string>,
                                 order': seq<string>, sig: Bytes, v: Version)
    requires Enumerates(order, binaries) && Enumerates(order', binaries)
    requires Ready(pack, binaries, order) && Ready(pack, binaries, order')
    requires c.valid(ManifestOf(c.hash, FilesOf(c, pack, binaries, order)), sig)
    requires var plan := Publication(c, pack, binaries, order, order', sig); AcceptedUpTo(c, v, plan, |plan|)
    ensures sig != [] && Publishable(c, pack, binaries, order)
  {
    var plan := Publication(c, pack, binaries, order, order', sig);
    FirstTwoAccepted(c, v, plan[0].text, sig, ZipUploads(pack, binaries, order'));
    ManifestOfNone(c, pack, binaries, order);
    forall p | p in order
      ensures Routed(SplitPlatform(p).value) && ZipOf(pack, binaries, p) != [] && Covered(c, pack, binaries, order, p)
    {
      assert p in binaries && p in order';
      var i :| 0 <= i < |order'| && order'[i] == p;
      ZipAccepted(c, pack, binaries, order, order', sig, v, i);
    }
    CoverageIsExact(c, pack, binaries, order);
  }

  lemma PublishableIsAccepted(c: Context, pack: Packer, binaries: map<string, Bytes>, order: seq<string>,
                              order': seq<string>, sig: Bytes, v: Version, j: nat)
    requires Enumerates(order, binaries) && Enumerates(order', binaries)
    requires Ready(pack, binaries, order) && Ready(pack, binaries, order') && j < |order'| + 2
    requires c.valid(ManifestOf(c.hash, FilesOf(c, pack, binaries, order)), sig)
    requires sig != [] && Publishable(c, pack, binaries, order)
    ensures var plan := Publication(c, pack, binaries, order, order', sig);
            Accepts(c, StoreAll(v, plan[..j]), plan[j])
  {
    if j < 2 {
      var plan := Publication(c, pack, binaries, order, order', sig);
      FirstTwoAccepted(c, v, plan[0].text, sig, ZipUploads(pack, binaries, order'));
      ManifestOfNone(c, pack, binaries, order);
    } else {
      ZipAccepted(c, pack, binaries, order, order', sig, v, j - 2);
      CoverageIsExact(c, pack, binaries, order);
    }
  }

  /**
   * Publish coverage: whatever the registry held before and whatever orders the map is iterated in, it accepts every
   * step of the upload sequence if and only if the publication is publishable and there is a signature to send.
   */
  lemma EveryStepAccepted(c: Context, pack: Packer, binaries: map<string, Bytes>, order: seq<string>,
                          order': seq<string>, sig: Bytes, v: Version)
    requires Enumerates(order, binaries) && Enumerates(order', binaries)
    requires Ready(pack, binaries, order) && Ready(pack, binaries, order')
    requires c.valid(ManifestOf(c.hash, FilesOf(c, pack, binaries, order)), sig)
    ensures var plan := Publication(c, pack, binaries, order, order', sig);
            AcceptedUpTo(c, v, plan, |plan|) <==> sig != [] && Publishable(c, pack, binaries, order)
  {
    var plan := Publication(c, pack, binaries, order, order', sig);
    if AcceptedUpTo(c, v, plan, |plan|) {
      AcceptedMeansPublishable(c, pack, binaries, order, order', sig, v);
    } else if sig != [] && Publishable(c, pack, binaries, order) {
      var j :| 0 <= j < |plan| && !Accepts(c, StoreAll(v, plan[..j]), plan[j]);
      PublishableIsAccepted(c, pack, binaries, order, order', sig, v, j);
    }
  }
}
