/** Publication of a release candidate: images pushed under their version tag, a
    git tag, a draft release with its assets, the release made public, and at last
    the moving `preview` tags. Every call to the registry or the repository host
    may fail, a write may land without being confirmed, and a run may stop after
    any call and be started again. */
module Publication {
  import opened Basics

  type Digest = string

  datatype Ref = Ref(isCommit: bool, sha: string)

  datatype File = File(size: nat, digest: Digest)

  datatype Asset = Asset(name: string, uploaded: bool, size: nat, digest: Digest)

  datatype Release = Release(
    tagName: string,
    target: string,
    prerelease: bool,
    body: string,
    draft: bool,
    immutable: bool,
    assets: seq<Asset>)

  /** The remote state one candidate's publication reads and writes: the git tag
      and release of its version, each role's image under the version tag and
      under `preview`, and whether the owner set releases to be immutable. */
  datatype World = World(
    tag: Option<Ref>,
    release: Option<Release>,
    versions: map<string, Digest>,
    previews: map<string, Digest>,
    immutableReleases: bool)

  /** The digest the code computes for an absent manifest: that of no bytes. */
  const EMPTY_DIGEST := "sha256:e3b0c44298fc1c149afbf4c8996fb92427ae41e4649b934ca495991b7852b855"

  datatype Candidate = Candidate(
    tag: string,
    target: string,
    body: string,
    roles: seq<string>,
    digests: map<string, Digest>,
    names: seq<string>,
    files: map<string, File>)
  {
    /** What verifying the review files establishes of them. */
    ghost predicate Valid() {
      && (forall role :: role in roles ==> role in digests && digests[role] != EMPTY_DIGEST)
      && (forall name :: name in names <==> name in files)
      && (forall i, j :: 0 <= i < j < |names| ==> names[i] != names[j])
      && |files| < 100
    }
  }

  function DigestOf(manifest: Option<Digest>): Digest { manifest.GetOr(EMPTY_DIGEST) }

  // --- the checks of a run, as predicates of the remote state ---

  predicate IdentityOf(c: Candidate, r: Release) {
    r.tagName == c.tag && r.target == c.target && r.prerelease && r.body == c.body
  }

  function Names(assets: seq<Asset>): set<string> { set a | a in assets :: a.name }

  predicate AssetsFit(c: Candidate, assets: seq<Asset>) {
    && |assets| < 100
    && |Names(assets)| == |assets|
    && Names(assets) <= c.files.Keys
    && forall a :: a in assets && a.name in c.files ==>
         a.uploaded && a.size == c.files[a.name].size && a.digest == c.files[a.name].digest
  }

  predicate Complete(c: Candidate, r: Release) { Names(r.assets) == c.files.Keys }

  predicate TagFits(c: Candidate, w: World) { w.tag.None? || w.tag == Some(Ref(true, c.target)) }

  predicate ReleaseFits(c: Candidate, w: World) {
    w.release.None? || (IdentityOf(c, w.release.value) && AssetsFit(c, w.release.value.assets))
  }

  predicate ImageFits(c: Candidate, w: World, role: string)
    requires role in c.digests
  {
    role in w.versions ==> w.versions[role] == c.digests[role]
  }

  /** Every role's version tag is free or at its expected image; with `present`, it is there. */
  ghost predicate ImagesFit(c: Candidate, w: World, present: bool)
    requires c.Valid()
  {
    forall role :: role in c.roles ==> ImageFits(c, w, role) && (present ==> role in w.versions)
  }

  /** Nothing published under the version contradicts the candidate. */
  ghost predicate Clear(c: Candidate, w: World)
    requires c.Valid()
  {
    TagFits(c, w) && ReleaseFits(c, w) && ImagesFit(c, w, false)
  }

  ghost predicate Tagged(c: Candidate, w: World)
    requires c.Valid()
  {
    Clear(c, w) && w.tag.Some? && ImagesFit(c, w, true)
  }

  /** The release is public and immutable with exactly the candidate's files, the
      tag at its target and every role's version tag at its expected image. */
  ghost predicate Released(c: Candidate, w: World)
    requires c.Valid()
  {
    Tagged(c, w) && w.release.Some? && !w.release.value.draft && w.release.value.immutable && Complete(c, w.release.value)
  }

  predicate PreviewDone(c: Candidate, w: World, role: string) {
    role in c.digests && role in w.previews && w.previews[role] == c.digests[role]
  }

  ghost predicate Final(c: Candidate, w: World)
    requires c.Valid()
  {
    Released(c, w) && forall role :: role in c.roles ==> PreviewDone(c, w, role)
  }

  /** Whether a run that nothing interrupts can end well from here. */
  ghost predicate CanFinish(c: Candidate, w: World)
    requires c.Valid()
  {
    && Clear(c, w)
    && (if w.release.Some? && !w.release.value.draft
        then w.release.value.immutable && Complete(c, w.release.value)
        else w.immutableReleases)
  }

  // --- what the checks come to, said of the remote state alone ---

  /** The candidate is out: its tag at its commit, its release public, immutable and with one
      uploaded asset for each of its files and no other, and each role's image under both tags. */
  ghost predicate IsPublished(c: Candidate, w: World) {
    && w.tag == Some(Ref(true, c.target))
    && w.release.Some?
    && (var r := w.release.value;
        && r.tagName == c.tag && r.target == c.target && r.prerelease && r.body == c.body && !r.draft && r.immutable
        && (forall i, j :: 0 <= i < j < |r.assets| ==> r.assets[i].name != r.assets[j].name)
        && (forall a :: a in r.assets ==> a.name in c.files)
        && (forall name :: name in c.files ==> Asset(name, true, c.files[name].size, c.files[name].digest) in r.assets))
    && (forall role :: role in c.roles ==>
          && role in c.digests
          && role in w.versions && w.versions[role] == c.digests[role]
          && role in w.previews && w.previews[role] == c.digests[role])
  }

  /** An asset that is not one of the candidate's files as it is. */
  predicate IsForeign(c: Candidate, a: Asset) {
    a.name !in c.files || !a.uploaded || a.size != c.files[a.name].size || a.digest != c.files[a.name].digest
  }

  ghost predicate ConflictingRelease(c: Candidate, r: Release) {
    || r.tagName != c.tag || r.target != c.target || !r.prerelease || r.body != c.body
    || |r.assets| >= 100
    || (exists i, j :: 0 <= i < j < |r.assets| && r.assets[i].name == r.assets[j].name)
    || (exists a :: a in r.assets && IsForeign(c, a))
  }

  /** Something stands under the candidate's version that is not the candidate's. */
  ghost predicate HasConflict(c: Candidate, w: World)
    requires c.Valid()
  {
    || (w.tag.Some? && w.tag.value != Ref(true, c.target))
    || (w.release.Some? && ConflictingRelease(c, w.release.value))
    || (exists role :: role in c.roles && role in w.versions && w.versions[role] != c.digests[role])
  }

  /** A release can still become immutable and complete, or is so already. */
  ghost predicate CanBeImmutable(c: Candidate, w: World) {
    if w.release.Some? && !w.release.value.draft
    then w.release.value.immutable && forall name :: name in c.files ==> exists a :: a in w.release.value.assets && a.name == name
    else w.immutableReleases
  }

  ghost predicate NoneTwice(assets: seq<Asset>) { forall i, j :: 0 <= i < j < |assets| ==> assets[i].name != assets[j].name }

  lemma {:induction false} NoneTwiceNext(before: seq<Asset>, last: Asset)
    ensures NoneTwice(before + [last]) <==> NoneTwice(before) && last.name !in Names(before)
  {
    NamesNext(before, last);
    hide Names;
    var all := before + [last];
    if NoneTwice(all) {
      forall i | 0 <= i < |before| ensures before[i].name != last.name { assert all[i] == before[i] && all[|before|] == last; }
      assert forall i :: 0 <= i < |before| ==> all[i] == before[i];
    }
  }

  lemma {:induction false} NamesDistinctExactly(assets: seq<Asset>)
    ensures |Names(assets)| == |assets| <==> NoneTwice(assets)
  {
    if assets != [] {
      var n := |assets| - 1;
      var (before, last) := (assets[..n], assets[n]);
      hide Names, NoneTwice;
      NamesDistinctExactly(before);
      NamesNext(before, last);
      NamesAtMost(before);
      NoneTwiceNext(before, last);
      assert assets == before + [last];
    }
  }

  lemma {:induction false} NamesNext(before: seq<Asset>, last: Asset)
    ensures Names(before + [last]) == Names(before) + {last.name}
    ensures last.name in Names(before) <==> exists i :: 0 <= i < |before| && before[i].name == last.name
  {
    assert forall a :: a in before + [last] <==> a in before || a == last;
    if last.name in Names(before) {
      var a :| a in before && a.name == last.name;
      var i :| 0 <= i < |before| && before[i] == a;
    }
  }

  lemma {:induction false} NamesAtMost(assets: seq<Asset>)
    ensures |Names(assets)| <= |assets|
  {
    if assets != [] {
      var n := |assets| - 1;
      NamesAtMost(assets[..n]);
      NamesNext(assets[..n], assets[n]);
      assert assets == assets[..n] + [assets[n]];
    }
  }

  lemma {:induction false} ReleaseConflictsExactly(c: Candidate, r: Release)
    ensures IdentityOf(c, r) && AssetsFit(c, r.assets) <==> !ConflictingRelease(c, r)
  {
    NamesDistinctExactly(r.assets);
    assert Names(r.assets) <= c.files.Keys <==> forall a :: a in r.assets ==> a.name in c.files;
  }

  /** Nothing published contradicts the candidate exactly if nothing there is another's. */
  lemma {:induction false} ConflictsExactly(c: Candidate, w: World)
    requires c.Valid()
    ensures Clear(c, w) <==> !HasConflict(c, w)
  {
    if w.release.Some? {
      ReleaseConflictsExactly(c, w.release.value);
    }
    hide IdentityOf, AssetsFit, ConflictingRelease;
  }

  lemma {:induction false} CompleteExactly(c: Candidate, r: Release)
    requires AssetsFit(c, r.assets)
    ensures Complete(c, r) <==> forall name :: name in c.files ==> exists a :: a in r.assets && a.name == name
  {
  }

  lemma {:induction false} CanFinishExactly(c: Candidate, w: World)
    requires c.Valid()
    ensures CanFinish(c, w) <==> !HasConflict(c, w) && CanBeImmutable(c, w)
  {
    ConflictsExactly(c, w);
    hide HasConflict, AssetsFit;
    if Clear(c, w) && w.release.Some? {
      CompleteExactly(c, w.release.value);
    }
  }

  lemma {:induction false} AssetsStand(c: Candidate, r: Release)
    requires AssetsFit(c, r.assets) && Complete(c, r)
    ensures forall name :: name in c.files ==> Asset(name, true, c.files[name].size, c.files[name].digest) in r.assets
  {
    forall name | name in c.files ensures Asset(name, true, c.files[name].size, c.files[name].digest) in r.assets {
      assert name in Names(r.assets);
      var a :| a in r.assets && a.name == name;
    }
  }

  /** The final state is the one in which the candidate is out. */
  lemma {:induction false} FinalIsPublished(c: Candidate, w: World)
    requires c.Valid() && Final(c, w)
    ensures IsPublished(c, w)
  {
    NamesDistinctExactly(w.release.value.assets);
    AssetsStand(c, w.release.value);
    hide Names, CanFinish;
    ClearAssets(c, w);
    FilesOnly(c, w.release.value.assets);
  }

  lemma {:induction false} FilesOnly(c: Candidate, assets: seq<Asset>)
    requires Names(assets) <= c.files.Keys
    ensures forall a :: a in assets ==> a.name in c.files
  {
    forall a | a in assets ensures a.name in c.files {
      assert a.name in Names(assets);
    }
  }

  // --- the writes, each with the state it may be made in ---

  datatype Action = PushImage(role: string) | CreateTag | CreateRelease | Upload(name: string) | Unveil
                  | PointPreview(role: string)

  ghost predicate Enabled(c: Candidate, w: World, a: Action)
    requires c.Valid()
  {
    match a
    case PushImage(role) => Clear(c, w) && role in c.roles && role !in w.versions
    case CreateTag => Clear(c, w) && w.tag.None? && ImagesFit(c, w, true)
    case CreateRelease => Tagged(c, w) && w.release.None?
    case Upload(name) =>
      Tagged(c, w) && w.release.Some? && w.release.value.draft
      && name in c.files && name !in Names(w.release.value.assets)
    case Unveil => Tagged(c, w) && w.release.Some? && w.release.value.draft && Complete(c, w.release.value)
    case PointPreview(role) =>
      Released(c, w) && role in c.roles && !PreviewDone(c, w, role)
  }

  function DraftOf(c: Candidate): Release { Release(c.tag, c.target, true, c.body, true, false, []) }

  /** What a write leaves behind when it lands. */
  function Landed(c: Candidate, w: World, a: Action): World {
    match a
    case PushImage(role) => if role in c.digests then w.(versions := w.versions[role := c.digests[role]]) else w
    case CreateTag => w.(tag := Some(Ref(true, c.target)))
    case CreateRelease => w.(release := Some(DraftOf(c)))
    case Upload(name) =>
      if w.release.Some? && name in c.files then
        var r := w.release.value;
        var asset := Asset(name, true, c.files[name].size, c.files[name].digest);
        w.(release := Some(r.(assets := r.assets + [asset])))
      else w
    case Unveil =>
      if w.release.Some?
      then w.(release := Some(w.release.value.(draft := false, immutable := w.immutableReleases)))
      else w
    case PointPreview(role) => if role in c.digests then w.(previews := w.previews[role := c.digests[role]]) else w
  }

  ghost predicate Next(c: Candidate, w: World, w': World)
    requires c.Valid()
  {
    exists a :: Enabled(c, w, a) && w' == Landed(c, w, a)
  }

  ghost predicate StepAt(c: Candidate, trace: seq<World>, i: int)
    requires c.Valid() && 0 < i < |trace|
  {
    Next(c, trace[i - 1], trace[i])
  }

  /** Every change of the remote state is one write, made where it may be. */
  ghost predicate Steps(c: Candidate, trace: seq<World>)
    requires c.Valid()
  {
    forall i :: 0 < i < |trace| ==> StepAt(c, trace, i)
  }

  lemma {:induction false} StepsExtend(c: Candidate, trace: seq<World>, w: World)
    requires c.Valid() && Steps(c, trace) && trace != [] && Next(c, trace[|trace| - 1], w)
    ensures Steps(c, trace + [w])
  {
    forall i | 0 < i < |trace| + 1 ensures StepAt(c, trace + [w], i) {
      assert i < |trace| ==> StepAt(c, trace, i);
    }
  }

  // --- what every write keeps ---

  lemma {:induction false} UploadedFits(c: Candidate, assets: seq<Asset>, name: string)
    requires c.Valid() && AssetsFit(c, assets) && name in c.files && name !in Names(assets)
    ensures AssetsFit(c, assets + [Asset(name, true, c.files[name].size, c.files[name].digest)])
    ensures Names(assets + [Asset(name, true, c.files[name].size, c.files[name].digest)]) == Names(assets) + {name}
  {
    var asset := Asset(name, true, c.files[name].size, c.files[name].digest);
    var more := assets + [asset];
    forall n | n in Names(assets) + {name} ensures n in Names(more) {
      if n == name {
        assert more[|assets|] == asset;
      } else {
        var i :| 0 <= i < |assets| && assets[i].name == n;
        assert more[i] == assets[i];
      }
    }
    assert Names(more) == Names(assets) + {name};
    SubsetSize(Names(more), c.files.Keys);
  }

  /** No write makes the candidate conflict with what is published, changes
      whether it can still be published, or leaves the final state. */
  lemma {:induction false} StepKeeps(c: Candidate, w: World, a: Action)
    requires c.Valid() && Enabled(c, w, a)
    ensures var w' := Landed(c, w, a);
      && Clear(c, w') && (CanFinish(c, w) <==> CanFinish(c, w'))
      && (Tagged(c, w) ==> Tagged(c, w')) && (Released(c, w) ==> Released(c, w')) && !Final(c, w)
  {
    if a.Upload? {
      UploadedFits(c, w.release.value.assets, a.name);
    } else if a.CreateRelease? {
      assert Names([]) == {};
    }
  }

  function FirstNames(c: Candidate, n: nat): set<string>
    requires n <= |c.names|
  {
    set name | name in c.names[..n]
  }

  lemma {:induction false} NoNames(c: Candidate)
    requires c.Valid()
    ensures FirstNames(c, 0) == {} && FirstNames(c, |c.names|) == c.files.Keys
  {
  }

  lemma {:induction false} NextName(c: Candidate, n: nat)
    requires c.Valid() && n < |c.names|
    ensures c.names[n] !in FirstNames(c, n) && c.names[n] in c.files
    ensures FirstNames(c, n + 1) == FirstNames(c, n) + {c.names[n]}
  {
  }

  /** What stands at a role's two tags of a released version before and after its preview is pointed. */
  lemma {:induction false} ReleasedImage(c: Candidate, w: World, role: string)
    requires c.Valid() && Released(c, w) && role in c.roles
    ensures role in c.digests && role in w.versions && w.versions[role] == c.digests[role]
    ensures !PreviewDone(c, w, role) ==> Enabled(c, w, PointPreview(role))
    ensures Landed(c, w, PointPreview(role)) == w.(previews := w.previews[role := c.digests[role]])
  {
  }

  /** A missing file may be uploaded to a draft; a public release that misses one cannot be finished. */
  lemma {:induction false} UploadLands(c: Candidate, w: World, name: string)
    requires c.Valid() && Tagged(c, w) && w.release.Some? && name in c.files && name !in Names(w.release.value.assets)
    ensures !w.release.value.draft ==> !CanFinish(c, w)
    ensures w.release.value.draft ==> Enabled(c, w, Upload(name))
    ensures var w' := Landed(c, w, Upload(name));
      w'.release.Some? && w'.release.value.draft == w.release.value.draft
      && Names(w'.release.value.assets) == Names(w.release.value.assets) + {name}
  {
  }

  lemma {:induction false} FinalCanFinish(c: Candidate, w: World)
    requires c.Valid() && Final(c, w)
    ensures CanFinish(c, w)
  {
  }

  lemma {:induction false} ClearAssets(c: Candidate, w: World)
    requires c.Valid() && Tagged(c, w) && w.release.Some?
    ensures IdentityOf(c, w.release.value) && AssetsFit(c, w.release.value.assets)
    ensures Names(w.release.value.assets) <= c.files.Keys
  {
  }

  // --- one run ---

  /** How a call to the registry or the host goes: a write that fails may have landed or not. */
  datatype Fate = Works | Fails | LandsUnconfirmed

  /** Why a run stopped. */
  datatype Stop = CallFailed | Conflict

  /** The registry and repository host as one publication sees them. */
  class Host {
    const c: Candidate
    const fate: nat -> Fate
    var world: World
    var calls: nat
    ghost var trace: seq<World>
    ghost var writes: nat

    ghost predicate Valid()
      reads `world, `trace
    {
      c.Valid() && trace != [] && trace[|trace| - 1] == world && Steps(c, trace)
    }

    constructor (candidate: Candidate, start: World, fates: nat -> Fate)
      requires candidate.Valid()
      ensures Valid() && c == candidate && fate == fates && world == start && trace == [start]
    {
      c, fate, world, calls, trace, writes := candidate, fates, start, 0, [start], 0;
    }

    /** What any stretch of a run leaves true. */
    twostate predicate Continues()
      requires c.Valid()
      reads this
    {
      && Valid()
      && old(trace) <= trace && old(calls) <= calls && old(writes) <= writes
      && world.immutableReleases == old(world.immutableReleases)
      && (CanFinish(c, world) <==> CanFinish(c, old(world)))
      && (Clear(c, old(world)) ==> Clear(c, world))
      && (Tagged(c, old(world)) ==> Tagged(c, world))
      && (Released(c, old(world)) ==> Released(c, world))
      && (Final(c, old(world)) ==> world == old(world) && writes == old(writes))
    }

    /** Every call since works. */
    ghost predicate UninterruptedFrom(n: nat) {
      forall k :: n <= k ==> fate(k) == Works
    }

    /** A read, or a check of the evidence, the fence or the clock: it answers or the run stops. */
    method Call() returns (r: Result<(), Stop>)
      requires Valid()
      modifies this`calls
      ensures calls == old(calls) + 1
      ensures r.Ok? <==> fate(old(calls)) == Works
      ensures r.Err? ==> !UninterruptedFrom(old(calls))
    {
      r := if fate(calls) == Works then Ok(()) else Err(CallFailed);
      calls := calls + 1;
    }

    /** One write: it lands and is confirmed, lands and is not, or does not land. */
    method Write(a: Action) returns (r: Result<(), Stop>)
      requires Valid() && Enabled(c, world, a)
      modifies this
      ensures Continues()
      ensures world == old(world) || world == Landed(c, old(world), a)
      ensures r.Ok? ==> world == Landed(c, old(world), a)
      ensures r.Err? ==> !UninterruptedFrom(old(calls))
    {
      StepKeeps(c, world, a);
      writes := writes + 1;
      var f := fate(calls);
      calls := calls + 1;
      if f != Fails {
        assert Next(c, world, Landed(c, world, a));
        StepsExtend(c, trace, Landed(c, world, a));
        world := Landed(c, world, a);
        trace := trace + [world];
      }
      r := if f == Works then Ok(()) else Err(CallFailed);
    }

    method Manifest(tags: map<string, Digest>, role: string) returns (r: Result<Option<Digest>, Stop>)
      requires Valid()
      modifies this`calls
      ensures calls == old(calls) + 1
      ensures r.Ok? ==> r.value == if role in tags then Some(tags[role]) else None
      ensures r.Err? ==> !UninterruptedFrom(old(calls))
    {
      var _ :- Call();
      return Ok(if role in tags then Some(tags[role]) else None);
    }

    method Promote(role: string) returns (r: Result<(), Stop>)
      requires Valid() && Clear(c, world) && role in c.roles
      modifies this
      ensures Continues()
      ensures r.Ok? ==> role in world.versions
      ensures forall other :: other in old(world).versions ==> other in world.versions
      ensures r.Err? ==> !UninterruptedFrom(old(calls))
      ensures world.tag == old(world).tag && world.release == old(world).release
    {
      var before :- Manifest(world.versions, role);
      if !(before.None? || before.value == c.digests[role]) {
        return Err(Conflict);
      }
      if before.Some? {
        return Ok(());
      }
      var _ :- Write(PushImage(role));
      var after :- Manifest(world.versions, role);
      r := if DigestOf(after) == c.digests[role] then Ok(()) else Err(Conflict);
    }

    /** The preview tag pointed, and seen to stand where it was pointed. */
    method Repoint(role: string) returns (r: Result<(), Stop>)
      requires Valid() && Released(c, world) && role in c.roles && !PreviewDone(c, world, role)
      modifies this
      ensures Continues()
      ensures r.Ok? ==> PreviewDone(c, world, role)
      ensures forall other :: PreviewDone(c, old(world), other) ==> PreviewDone(c, world, other)
      ensures r.Err? ==> !UninterruptedFrom(old(calls))
    {
      ReleasedImage(c, world, role);
      hide Steps, CanFinish, Final, Released, Tagged, Clear, Enabled, Landed;
      var _ :- Write(PointPreview(role));
      var after :- Manifest(world.previews, role);
      r := if DigestOf(after) == c.digests[role] then Ok(()) else Err(Conflict);
    }

    method Preview(role: string) returns (r: Result<(), Stop>)
      requires Valid() && Released(c, world) && role in c.roles
      modifies this
      ensures Continues()
      ensures r.Ok? ==> PreviewDone(c, world, role)
      ensures forall other :: PreviewDone(c, old(world), other) ==> PreviewDone(c, world, other)
      ensures r.Err? ==> !UninterruptedFrom(old(calls))
    {
      ReleasedImage(c, world, role);
      hide Steps, CanFinish, Final, Released, Tagged, Clear, Enabled, Landed, Candidate.Valid, Next;
      var version :- Manifest(world.versions, role);
      if DigestOf(version) != c.digests[role] {
        return Err(Conflict);
      }
      var preview :- Manifest(world.previews, role);
      var again :- Manifest(world.versions, role);
      if preview == again {
        return Ok(());
      }
      r := Repoint(role);
    }

    /** The release's assets: none unknown, repeated or different, and with `complete`, none missing. */
    method AssetSet(complete: bool) returns (r: Result<set<string>, Stop>)
      requires Valid() && world.release.Some?
      modifies `calls
      ensures old(calls) <= calls
      ensures r.Ok? ==> r.value == Names(world.release.value.assets)
      ensures r.Ok? ==> AssetsFit(c, world.release.value.assets) && (complete ==> Complete(c, world.release.value))
      ensures r.Err? && r.error == CallFailed ==> !UninterruptedFrom(old(calls))
      ensures r.Err? && AssetsFit(c, world.release.value.assets) && (complete ==> Complete(c, world.release.value))
        ==> !UninterruptedFrom(old(calls))
    {
      var _ :- Call();
      var entries := world.release.value.assets;
      if !(AssetsFit(c, entries) && (complete ==> Names(entries) == c.files.Keys)) {
        return Err(Conflict);
      }
      r := Ok(Names(entries));
    }

    method InspectRelease() returns (r: Result<Option<Release>, Stop>)
      requires Valid()
      modifies `calls
      ensures old(calls) <= calls
      ensures r.Ok? ==> ReleaseFits(c, world) && r.value == world.release
      ensures r.Err? && r.error == CallFailed ==> !UninterruptedFrom(old(calls))
      ensures r.Err? ==> !UninterruptedFrom(old(calls)) || !ReleaseFits(c, world)
    {
      var _ :- Call();
      var release := world.release;
      if release.Some? {
        if !IdentityOf(c, release.value) {
          return Err(Conflict);
        }
        var _ :- AssetSet(false);
      }
      r := Ok(release);
    }

    method InspectImages(present: bool) returns (r: Result<(), Stop>)
      requires Valid()
      modifies `calls
      ensures old(calls) <= calls
      ensures r.Ok? ==> ImagesFit(c, world, present)
      ensures r.Err? && r.error == CallFailed ==> !UninterruptedFrom(old(calls))
      ensures r.Err? ==> !UninterruptedFrom(old(calls)) || !ImagesFit(c, world, present)
    {
      for i := 0 to |c.roles|
        invariant old(calls) <= calls
        invariant forall k :: 0 <= k < i ==>
          ImageFits(c, world, c.roles[k]) && (present ==> c.roles[k] in world.versions)
      {
        var current :- Manifest(world.versions, c.roles[i]);
        assert c.roles[i] in c.roles;
        if !(if present then DigestOf(current) == c.digests[c.roles[i]]
             else current.None? || current.value == c.digests[c.roles[i]]) {
          return Err(Conflict);
        }
      }
      r := Ok(());
    }

    /** The checks before the first write, of everything already there. */
    method Inspect() returns (r: Result<(Option<Ref>, Option<Release>), Stop>)
      requires Valid()
      modifies `calls
      ensures old(calls) <= calls
      ensures r.Ok? ==> Clear(c, world) && r.value == (world.tag, world.release)
      ensures r.Err? && r.error == CallFailed ==> !UninterruptedFrom(old(calls))
      ensures r.Err? ==> !UninterruptedFrom(old(calls)) || !CanFinish(c, world)
    {
      var _ :- Call();
      var existing := world.tag;
      if !TagFits(c, world) {
        return Err(Conflict);
      }
      var release :- InspectRelease();
      var _ :- InspectImages(false);
      r := Ok((existing, release));
    }

    method PromoteAll() returns (r: Result<(), Stop>)
      requires Valid() && Clear(c, world)
      modifies this
      ensures Continues()
      ensures world.tag == old(world).tag && world.release == old(world).release
      ensures r.Ok? ==> ImagesFit(c, world, true)
      ensures r.Err? ==> !UninterruptedFrom(old(calls))
    {
      hide Tagged, Released, Final, CanFinish, Steps;
      for i := 0 to |c.roles|
        invariant Continues() && Clear(c, world)
        invariant world.tag == old(world).tag && world.release == old(world).release
        invariant forall k :: 0 <= k < i ==> c.roles[k] in world.versions
      {
        var _ :- Call();
        var _ :- Promote(c.roles[i]);
      }
      r := Ok(());
    }

    /** The tag and the draft release, unless they were found. */
    method CreateMissing(existing: Option<Ref>, release: Option<Release>) returns (r: Result<(), Stop>)
      requires Valid() && Clear(c, world) && ImagesFit(c, world, true)
      requires world.tag == existing && world.release == release
      modifies this
      ensures Continues()
      ensures r.Ok? ==> Tagged(c, world) && world.release == Some(release.GetOr(DraftOf(c)))
      ensures r.Err? ==> !UninterruptedFrom(old(calls))
    {
      hide Released, Final, CanFinish, Steps;
      if existing.None? {
        var _ :- Write(CreateTag);
      }
      if release.None? {
        var _ :- Write(CreateRelease);
      }
      r := Ok(());
    }

    /** Images, tag and release in place; the release as the run then holds it. */
    method Prepare() returns (r: Result<Release, Stop>)
      requires Valid()
      modifies this
      ensures Continues()
      ensures r.Ok? ==> Tagged(c, world) && world.release == Some(r.value)
      ensures !Clear(c, old(world)) ==> r.Err? && world == old(world) && writes == old(writes)
      ensures r.Err? && r.error == CallFailed ==> !UninterruptedFrom(old(calls))
      ensures r.Err? ==> !UninterruptedFrom(old(calls)) || !CanFinish(c, old(world))
    {
      hide Clear, Tagged, Released, Final, CanFinish, Steps, ImagesFit, IdentityOf;
      var found :- Inspect();
      var (existing, release) := found;
      var _ :- PromoteAll();
      var _ :- CreateMissing(existing, release);
      ClearAssets(c, world);
      var mine := release.GetOr(DraftOf(c));
      if !IdentityOf(c, mine) {
        return Err(Conflict);
      }
      r := Ok(mine);
    }

    /** One file put on the draft, unless it was there from the start. */
    method FillOne(release: Release, name: string) returns (r: Result<(), Stop>)
      requires Valid() && Tagged(c, world) && world.release.Some? && world.release.value.draft == release.draft
      requires name in c.files && (name !in Names(release.assets) ==> name !in Names(world.release.value.assets))
      modifies this
      ensures Continues()
      ensures world.release.Some? && world.release.value.draft == release.draft
      ensures r.Ok? && name !in Names(release.assets) ==>
        Names(world.release.value.assets) == Names(old(world).release.value.assets) + {name}
      ensures name in Names(release.assets) ==> world == old(world)
      ensures r.Err? && r.error == CallFailed ==> !UninterruptedFrom(old(calls))
      ensures r.Err? ==> !UninterruptedFrom(old(calls)) || !CanFinish(c, old(world))
    {
      hide Clear, Tagged, Released, Final, CanFinish, Steps, AssetsFit, Names, Candidate.Valid, Enabled, Landed;
      if name in Names(release.assets) {
        return Ok(());
      }
      UploadLands(c, world, name);
      if !release.draft {
        return Err(Conflict);
      }
      var _ :- Call();
      r := Write(Upload(name));
    }

    /** The files not yet there, uploaded to the draft one by one. */
    method Fill(release: Release) returns (r: Result<(), Stop>)
      requires Valid() && Tagged(c, world) && world.release == Some(release)
      modifies this
      ensures Continues()
      ensures world.release.Some?
      ensures r.Ok? ==> Complete(c, world.release.value)
      ensures r.Err? && r.error == CallFailed ==> !UninterruptedFrom(old(calls))
      ensures r.Err? ==> !UninterruptedFrom(old(calls)) || !CanFinish(c, old(world))
    {
      hide Clear, Tagged, Released, Final, CanFinish, Steps, AssetsFit, FirstNames, Names, Candidate.Valid;
      NoNames(c);
      ClearAssets(c, world);
      for i := 0 to |c.names|
        invariant Continues() && Tagged(c, world)
        invariant world.release.Some? && world.release.value.draft == release.draft
        invariant Names(world.release.value.assets) == Names(release.assets) + FirstNames(c, i)
      {
        NextName(c, i);
        var _ :- FillOne(release, c.names[i]);
      }
      r := Ok(());
    }

    method Assemble() returns (r: Result<(), Stop>)
      requires Valid()
      modifies this
      ensures Continues()
      ensures r.Ok? ==> Tagged(c, world) && world.release.Some? && Complete(c, world.release.value)
      ensures !Clear(c, old(world)) ==> r.Err? && world == old(world) && writes == old(writes)
      ensures r.Err? && r.error == CallFailed ==> !UninterruptedFrom(old(calls))
      ensures r.Err? ==> !UninterruptedFrom(old(calls)) || !CanFinish(c, old(world))
    {
      hide Clear, Tagged, Released, Final, CanFinish, Steps, AssetsFit, Names, Complete, Candidate.Valid;
      var release :- Prepare();
      var _ :- Fill(release);
      ClearAssets(c, world);
      var _ :- AssetSet(true);
      r := Ok(());
    }

    /** The complete release made public, once everything under its version is confirmed. */
    method MakePublic() returns (r: Result<(), Stop>)
      requires Valid() && Tagged(c, world) && world.release.Some? && Complete(c, world.release.value)
      modifies this
      ensures Continues()
      ensures r.Ok? ==> Released(c, world)
      ensures r.Err? && r.error == CallFailed ==> !UninterruptedFrom(old(calls))
      ensures r.Err? ==> !UninterruptedFrom(old(calls)) || !CanFinish(c, old(world))
    {
      hide Steps, Final, Candidate.Valid;
      var _ :- InspectImages(true);
      var _ :- Call();
      var _ :- Call();
      if !(world.tag.Some? && TagFits(c, world)) {
        return Err(Conflict);
      }
      var release :- InspectRelease();
      if Names(release.value.assets) != c.files.Keys {
        return Err(Conflict);
      }
      if release.value.draft {
        var _ :- Write(Unveil);
      }
      var _ :- Call();
      var published := world.release.value;
      if !IdentityOf(c, published) {
        return Err(Conflict);
      }
      r := if !published.draft && published.immutable then Ok(()) else Err(Conflict);
    }

    method PointPreviews() returns (r: Result<(), Stop>)
      requires Valid() && Released(c, world)
      modifies this
      ensures Continues()
      ensures r.Ok? ==> Final(c, world)
      ensures r.Err? ==> !UninterruptedFrom(old(calls))
    {
      hide Clear, Tagged, Released, CanFinish, Steps, Candidate.Valid;
      for i := 0 to |c.roles|
        invariant Continues() && Released(c, world)
        invariant forall k :: 0 <= k < i ==> PreviewDone(c, world, c.roles[k])
      {
        var _ :- Call();
        var _ :- Preview(c.roles[i]);
      }
      r := Ok(());
    }

    /** A run up to the public release. */
    method MakeRelease() returns (r: Result<(), Stop>)
      requires Valid()
      modifies this
      ensures Continues()
      ensures r.Ok? ==> Released(c, world)
      ensures !Clear(c, old(world)) ==> r.Err? && world == old(world) && writes == old(writes)
      ensures r.Err? && r.error == CallFailed ==> !UninterruptedFrom(old(calls))
      ensures r.Err? ==> !UninterruptedFrom(old(calls)) || !CanFinish(c, old(world))
    {
      hide Clear, Tagged, Released, CanFinish, Steps, Final, TagFits, ReleaseFits, Complete, Candidate.Valid;
      var _ :- Call();
      var _ :- Assemble();
      var _ :- MakePublic();
      r := Call();
    }

    /** One run of the publication. It only ends well with the candidate out. Started where
        something of another stands under its version it writes nothing and ends in error.
        Nothing interrupting it, it ends well exactly if nothing of another stands there and
        its release can be immutable, and else in a conflict; started in the final state it
        writes nothing. */
    method Publish() returns (r: Result<string, Stop>)
      requires Valid()
      modifies this
      ensures Continues()
      ensures r.Ok? ==> Final(c, world) && IsPublished(c, world) && r.value == c.tag
      ensures HasConflict(c, old(world)) ==> r.Err? && world == old(world) && writes == old(writes)
      ensures old(UninterruptedFrom(calls)) ==>
        (r.Ok? <==> !HasConflict(c, old(world)) && CanBeImmutable(c, old(world))) && (r.Err? ==> r.error == Conflict)
    {
      ConflictsExactly(c, world);
      CanFinishExactly(c, world);
      hide *;
      var _ :- MakeRelease();
      var _ :- PointPreviews();
      FinalCanFinish(c, world);
      FinalIsPublished(c, world);
      r := Ok(c.tag);
    }
  }

  // --- every state that any number of interrupted runs can leave ---

  /** What was there stays as it was: a tag, an image under a version tag, a public
      release with its assets, and each asset of a draft. */
  ghost predicate NothingOverwritten(w: World, w': World) {
    && (w.tag.Some? ==> w'.tag == w.tag)
    && (forall role :: role in w.versions ==> role in w'.versions && w'.versions[role] == w.versions[role])
    && (w.release.Some? ==>
         w'.release.Some? && w.release.value.assets <= w'.release.value.assets
         && (!w.release.value.draft ==> w'.release == w.release))
  }

  predicate SamePreview(w: World, w': World, role: string) {
    if role in w.previews then role in w'.previews && w'.previews[role] == w.previews[role] else role !in w'.previews
  }

  lemma {:induction false} OneWrite(c: Candidate, w: World, w': World, role: string)
    requires c.Valid() && Next(c, w, w')
    ensures NothingOverwritten(w, w')
    ensures Released(c, w) ==> Released(c, w')
    ensures CanFinish(c, w) <==> CanFinish(c, w')
    ensures SamePreview(w, w', role) || (PreviewDone(c, w', role) && Released(c, w'))
    ensures PreviewDone(c, w, role) ==> SamePreview(w, w', role)
  {
    var a :| Enabled(c, w, a) && w' == Landed(c, w, a);
    StepKeeps(c, w, a);
    WriteOverwritesNothing(c, w, a);
    WritePreviews(c, w, a, role);
    hide Enabled, Landed, NothingOverwritten, SamePreview, PreviewDone, Released, CanFinish;
  }

  lemma {:induction false} WriteOverwritesNothing(c: Candidate, w: World, a: Action)
    requires c.Valid() && Enabled(c, w, a)
    ensures NothingOverwritten(w, Landed(c, w, a))
  {
  }

  lemma {:induction false} WritePreviews(c: Candidate, w: World, a: Action, role: string)
    requires c.Valid() && Enabled(c, w, a)
    ensures var w' := Landed(c, w, a);
      && (SamePreview(w, w', role) || (PreviewDone(c, w', role) && Released(c, w')))
      && (PreviewDone(c, w, role) ==> SamePreview(w, w', role))
  {
  }

  lemma {:induction false} OverwritesNothingThrough(w: World, u: World, v: World)
    requires NothingOverwritten(w, u) && NothingOverwritten(u, v)
    ensures NothingOverwritten(w, v)
  {
  }

  /** Over any runs, interrupted or not: nothing published is overwritten, a full
      release stays one, and whether the candidate can still be published does
      not change. */
  lemma {:induction false} Onward(c: Candidate, trace: seq<World>, i: nat, j: nat)
    requires c.Valid() && Steps(c, trace) && i <= j < |trace|
    ensures NothingOverwritten(trace[i], trace[j])
    ensures Released(c, trace[i]) ==> Released(c, trace[j])
    ensures CanFinish(c, trace[i]) <==> CanFinish(c, trace[j])
    decreases j - i
  {
    if i < j {
      hide Released, CanFinish;
      assert StepAt(c, trace, j);
      OneWrite(c, trace[j - 1], trace[j], "");
      Onward(c, trace, i, j - 1);
      OverwritesNothingThrough(trace[i], trace[j - 1], trace[j]);
    }
  }

  /** A role's preview is what it was, or the expected image of a release that is
      public, immutable and complete, with its tag and every image in place. */
  lemma {:induction false} PreviewsFollowRelease(c: Candidate, trace: seq<World>, i: nat, j: nat, role: string)
    requires c.Valid() && Steps(c, trace) && i <= j < |trace|
    ensures SamePreview(trace[i], trace[j], role) || (PreviewDone(c, trace[j], role) && Released(c, trace[j]))
    decreases j - i
  {
    if i < j {
      hide Released, CanFinish, NothingOverwritten;
      assert StepAt(c, trace, j);
      OneWrite(c, trace[j - 1], trace[j], role);
      PreviewsFollowRelease(c, trace, i, j - 1, role);
    }
  }

  /** A candidate nothing of which is published yet can be published exactly if
      releases are set to be immutable. */
  lemma {:induction false} FreshCanFinish(c: Candidate, w: World)
    requires c.Valid() && w.tag.None? && w.release.None? && w.versions == map[]
    ensures CanFinish(c, w) <==> w.immutableReleases
  {
  }
}
