/**
 A package as the API reports it, and the version map that is stored for it: the normal
 form of the raw versions, cut at the directory's stable version.
 */
module Packages {
  import opened Text
  import opened Version

  /** A stable version above the directory's, if the directory's is a version at all. */
  ghost predicate HasPending(versions: set<string>, stable: Option<string>) {
    stable.Some? && IsCeiling(Normalize(stable.value))
    && exists v :: v in versions && IsPending(v, Normalize(stable.value))
  }

  /** What is kept: everything but the stable versions above the directory's. */
  ghost function Published(versions: map<string, string>, stable: Option<string>): map<string, string> {
    if stable.Some? && IsCeiling(Normalize(stable.value)) then Kept(versions, Normalize(stable.value)) else versions
  }

  /** The keys raw versions normalize to. */
  function NormalKeys(raw: set<string>): set<string> {
    set r | r in raw && Normalize(r) != "" :: Normalize(r)
  }

  class Package {
    var rawVersions: Option<map<string, string>>
    var wporgVersion: Option<string>
    var versions: map<string, string>
    var currentVersion: Option<string>

    constructor (raw: Option<map<string, string>>, reported: Option<string>)
      ensures rawVersions == raw && wporgVersion == reported && versions == map[] && currentVersion == reported
    {
      rawVersions, wporgVersion, versions, currentVersion := raw, reported, map[], reported;
    }

    /**
     Stores the versions to publish and the latest of them. Tells how many there are,
     and whether a stable release is waiting above the directory's version.
     */
    method NormalizeAndStoreVersions() returns (valid: nat, pendingStable: bool)
      modifies this`versions, this`currentVersion
      ensures valid == |versions|
      ensures rawVersions.None? ==> versions == map[] && !pendingStable && currentVersion == old(currentVersion)
      ensures rawVersions.Some? ==> IsListed(rawVersions.value, wporgVersion, versions, pendingStable)
      ensures rawVersions.Some? ==> IsCurrent(currentVersion, versions, old(currentVersion))
    {
      if rawVersions.None? {
        versions := map[];
        return 0, false;
      }
      versions, pendingStable := Listed(rawVersions.value, wporgVersion);
      currentVersion := Current(versions, currentVersion);
      return |versions|, pendingStable;
    }
  }

  /** The published versions, and whether a stable one was held back. */
  ghost predicate IsListed(raw: map<string, string>, stable: Option<string>, kept: map<string, string>, pending: bool) {
    && kept == Published(NormalForm(raw), stable)
    && (pending <==> HasPending(NormalKeys(raw.Keys), stable))
  }

  method Listed(raw: map<string, string>, stable: Option<string>) returns (kept: map<string, string>, pending: bool)
    ensures IsListed(raw, stable, kept, pending) && "" !in kept
  {
    var normalized := Normalized(raw);
    kept, pending := Cut(normalized, stable);
  }

  /** The latest version: a highest stable one, else a highest pre-release, else the old value. */
  ghost predicate IsCurrent(current: Option<string>, versions: map<string, string>, before: Option<string>) {
    if Tagged(versions) == {} then current == before
    else
      current.Some?
      && IsHighest(current.value, if StableOnes(versions) != {} then StableOnes(versions) else Tagged(versions))
  }

  method Current(versions: map<string, string>, before: Option<string>) returns (current: Option<string>)
    requires "" !in versions
    ensures IsCurrent(current, versions, before)
  {
    var latest := Latest(versions);
    current := if latest != "" then Some(latest) else before;
    assert Tagged(versions) == {} ==> StableOnes(versions) == {};
  }

  method Normalized(raw: map<string, string>) returns (normalized: map<string, string>)
    ensures normalized == NormalForm(raw) && normalized.Keys == NormalKeys(raw.Keys) && "" !in normalized
  {
    normalized := NormalizeVersions(raw);
    NormalFormIsUnique(raw, normalized, NormalForm(raw));
    KeysOfNormalForm(raw, normalized);
  }

  /** Drops what is above the directory's version, and tells whether that was anything. */
  method Cut(versions: map<string, string>, stable: Option<string>)
    returns (kept: map<string, string>, pendingStable: bool)
    ensures kept == Published(versions, stable) && kept.Keys <= versions.Keys
    ensures pendingStable <==> HasPending(versions.Keys, stable)
  {
    kept, pendingStable := versions, false;
    if stable.Some? {
      kept := FilterNewerThan(versions, stable.value);
      pendingStable := |kept| < |versions|;
      DroppedIffPending(versions, stable);
    }
  }

  lemma KeysOfNormalForm(raw: map<string, string>, normal: map<string, string>)
    requires IsNormalForm(raw, normal)
    ensures normal.Keys == NormalKeys(raw.Keys) && "" !in normal
  {
    forall n ensures n in normal <==> n in NormalKeys(raw.Keys) {
      if n != "" && Candidates(raw, n) != {} { var r := Pick(Candidates(raw, n)); }
      if r :| r in raw && Normalize(r) == n { assert r in Candidates(raw, n); }
    }
  }

  /** The map gets smaller exactly when a stable version above the ceiling was there. */
  lemma DroppedIffPending(versions: map<string, string>, stable: Option<string>)
    ensures |Published(versions, stable)| < |versions| <==> HasPending(versions.Keys, stable)
    ensures Published(versions, stable).Keys <= versions.Keys
  {
    if stable.Some? && IsCeiling(Normalize(stable.value)) {
      SmallerIffPending(versions, Normalize(stable.value));
    }
  }

  lemma SmallerIffPending(versions: map<string, string>, ceiling: string)
    ensures |Kept(versions, ceiling)| < |versions| <==> exists v :: v in versions && IsPending(v, ceiling)
  {
    if v :| v in versions && IsPending(v, ceiling) {
      SmallerSet(Kept(versions, ceiling).Keys, versions.Keys, v);
    } else {
      assert Kept(versions, ceiling) == versions;
    }
  }

  lemma SmallerSet<T>(a: set<T>, b: set<T>, x: T)
    requires a <= b && x in b && x !in a
    ensures |a| < |b|
  {
    assert a <= b - {x};
    SubsetSize(a, b - {x});
  }

  lemma {:induction false} SubsetSize<T>(a: set<T>, b: set<T>)
    requires a <= b
    ensures |a| <= |b|
    decreases |a|
  {
    if a != {} {
      var x := Pick(a);
      SubsetSize(a - {x}, b - {x});
    }
  }
}
