/**
 * The package broadcast receiver of the application manager: which package
 * events lead to an automatic launch of the newly installed application, the
 * exclusion of system applications, and the bounded retry chain that waits
 * for the installation to settle before launching.
 *
 * The package manager is replaced by explicit answers: `lookup` says what
 * `getApplicationInfo` yields for a name, and `probe(k)` says what the
 * attempt with retry counter `k` observes. Delays between attempts are kept
 * only as the number of milliseconds each retry waits.
 */
module AppInstall {

  import opened Optional

  /** Number of retries after the first attempt. */
  const MaxRetryCount: nat := 3

  /** Delay before a retry of an application that exists but is disabled. */
  const DisabledRetryDelay: nat := 1000

  /** Delay before a retry of an application the package manager does not know yet. */
  const NotFoundRetryDelay: nat := 1500

  /** What one launch attempt observes. */
  datatype Probe =
    | NotFound                  // getApplicationInfo throws NameNotFoundException
    | Failure                   // any other exception, at any point of the attempt
    | Found(enabled: bool, hasLaunchIntent: bool)

  /** How one attempt ends. */
  datatype Step =
    | Retried(delay: nat)       // another attempt is scheduled with the counter one higher
    | Launched                  // startActivity was called and returned
    | NoLaunchIntent            // enabled, but the package has no main activity
    | GaveUp                    // disabled or not found, and the retries are used up
    | Aborted                   // an unexpected exception ended the chain

  /** An attempt whose observation leads to a retry while retries remain. */
  predicate Retryable(p: Probe) {
    p == NotFound || (p.Found? && !p.enabled)
  }

  /** The attempt that launches the application. */
  predicate Launchable(p: Probe) {
    p == Found(true, true)
  }

  /**
   * `launchAppWithRetry(packageName, retryCount)`: the steps of the chain,
   * one per attempt, starting at counter `retryCount`.
   */
  function LaunchWithRetry(probe: nat -> Probe, retryCount: nat): (r: seq<Step>)
    ensures 1 <= |r|
    ensures retryCount <= MaxRetryCount ==> retryCount + |r| <= MaxRetryCount + 1
    ensures retryCount > MaxRetryCount ==> |r| == 1
    ensures forall k | 0 <= k < |r| - 1 :: r[k].Retried? && retryCount + k < MaxRetryCount
    ensures forall k | 0 <= k < |r| - 1 ::
              (r[k] == Retried(DisabledRetryDelay)
                 && probe(retryCount + k).Found? && !probe(retryCount + k).enabled)
              || (r[k] == Retried(NotFoundRetryDelay) && probe(retryCount + k) == NotFound)
    ensures !r[|r| - 1].Retried?
    ensures r[|r| - 1] == Launched <==> Launchable(probe(retryCount + |r| - 1))
    ensures r[|r| - 1] == NoLaunchIntent <==> probe(retryCount + |r| - 1) == Found(true, false)
    ensures r[|r| - 1] == Aborted <==> probe(retryCount + |r| - 1) == Failure
    ensures r[|r| - 1] == GaveUp <==> Retryable(probe(retryCount + |r| - 1))
    ensures r[|r| - 1] == GaveUp ==> retryCount + |r| - 1 >= MaxRetryCount
    decreases if retryCount < MaxRetryCount then MaxRetryCount - retryCount else 0
  {
    match probe(retryCount)
    case NotFound =>
      if retryCount < MaxRetryCount then
        [Retried(NotFoundRetryDelay)] + LaunchWithRetry(probe, retryCount + 1)
      else [GaveUp]
    case Failure => [Aborted]
    case Found(enabled, hasLaunchIntent) =>
      if !enabled then
        if retryCount < MaxRetryCount then
          [Retried(DisabledRetryDelay)] + LaunchWithRetry(probe, retryCount + 1)
        else [GaveUp]
      else if hasLaunchIntent then [Launched]
      else [NoLaunchIntent]
  }

  /** Number of launches in a chain. */
  function LaunchCount(steps: seq<Step>): nat {
    if |steps| == 0 then 0
    else (if steps[0] == Launched then 1 else 0) + LaunchCount(steps[1..])
  }

  /** Only the final step of a chain can be something other than a retry. */
  lemma {:induction false} LaunchCountOfRetries(steps: seq<Step>)
    requires forall k | 0 <= k < |steps| :: steps[k].Retried?
    ensures LaunchCount(steps) == 0
  {
    if |steps| > 0 {
      LaunchCountOfRetries(steps[1..]);
    }
  }

  lemma {:induction false} LaunchCountAppend(a: seq<Step>, b: seq<Step>)
    ensures LaunchCount(a + b) == LaunchCount(a) + LaunchCount(b)
  {
    if |a| > 0 {
      assert (a + b)[1..] == a[1..] + b;
      LaunchCountAppend(a[1..], b);
    } else {
      assert a + b == b;
    }
  }

  /** A chain launches the application at most once, and once exactly when it ends in a launch. */
  lemma AtMostOneLaunch(probe: nat -> Probe, retryCount: nat)
    ensures LaunchCount(LaunchWithRetry(probe, retryCount)) <= 1
    ensures LaunchCount(LaunchWithRetry(probe, retryCount)) == 1
            <==> Launched in LaunchWithRetry(probe, retryCount)
  {
    var r := LaunchWithRetry(probe, retryCount);
    var n := |r| - 1;
    assert r == r[..n] + [r[n]];
    LaunchCountOfRetries(r[..n]);
    LaunchCountAppend(r[..n], [r[n]]);
    assert [r[n]][1..] == [];
    if Launched in r {
      var k :| 0 <= k < |r| && r[k] == Launched;
      assert k == n;
    }
  }

  /**
   * Reference description of a successful chain started at `retryCount`: the
   * attempt with counter `j` finds the application launchable, no later than
   * the last allowed retry, and every earlier attempt asked for a retry.
   */
  predicate LaunchesAt(probe: nat -> Probe, retryCount: nat, j: nat) {
    retryCount <= j <= MaxRetryCount
    && (forall k | retryCount <= k < j :: Retryable(probe(k)))
    && Launchable(probe(j))
  }

  /** A retry step carries the reference description over from the next counter. */
  lemma LaunchesAtAfterRetry(probe: nat -> Probe, retryCount: nat, j: nat)
    requires Retryable(probe(retryCount))
    ensures LaunchesAt(probe, retryCount, j) <==> LaunchesAt(probe, retryCount + 1, j)
  {
    if LaunchesAt(probe, retryCount, j) {
      assert j != retryCount;
    }
  }

  /** An attempt that neither launches nor retries admits no launching index. */
  lemma NoLaunchesAt(probe: nat -> Probe, retryCount: nat, j: nat)
    requires !Launchable(probe(retryCount))
    requires !Retryable(probe(retryCount)) || retryCount == MaxRetryCount
    ensures !LaunchesAt(probe, retryCount, j)
  {
  }

  /** The chain ends in a launch iff some attempt index meets the reference description. */
  lemma {:induction false} LaunchIffReference(probe: nat -> Probe, retryCount: nat)
    requires retryCount <= MaxRetryCount
    ensures Launched in LaunchWithRetry(probe, retryCount)
            <==> exists j :: LaunchesAt(probe, retryCount, j)
    decreases MaxRetryCount - retryCount
  {
    var r := LaunchWithRetry(probe, retryCount);
    var p := probe(retryCount);
    if Launchable(p) {
      assert LaunchesAt(probe, retryCount, retryCount);
    } else if Retryable(p) && retryCount < MaxRetryCount {
      var next := retryCount + 1;
      LaunchIffReference(probe, next);
      var rest := LaunchWithRetry(probe, next);
      assert r == [r[0]] + rest && r[0].Retried?;
      assert Launched in r <==> Launched in rest;
      forall j
        ensures LaunchesAt(probe, retryCount, j) <==> LaunchesAt(probe, next, j)
      {
        LaunchesAtAfterRetry(probe, retryCount, j);
      }
    } else {
      assert |r| == 1 && r[0] != Launched;
      forall j
        ensures !LaunchesAt(probe, retryCount, j)
      {
        NoLaunchesAt(probe, retryCount, j);
      }
    }
  }

  /** The receiver's calls start the chain at 0, so it runs at most four attempts. */
  lemma ChainFromZero(probe: nat -> Probe)
    ensures |LaunchWithRetry(probe, 0)| <= MaxRetryCount + 1 == 4
  {
  }

  // ----- broadcast dispatch -----

  datatype Action = PackageAdded | PackageReplaced | PackageRemoved | OtherAction

  /**
   * A package broadcast: the action, the package named by the data URI (None
   * when the URI or its scheme-specific part is missing) and the
   * `EXTRA_REPLACING` flag (false when absent).
   */
  datatype Broadcast = Broadcast(action: Action, packageName: Option<string>, replacing: bool)

  /** What `getApplicationInfo` yields: the flags word, or None when it throws. */
  type Lookup = string -> Option<bv32>

  /** `ApplicationInfo.FLAG_SYSTEM`. */
  const FlagSystem: bv32 := 1

  /** The fixed names treated as system applications (the source lists one name twice). */
  const SystemPackages: set<string> := {
    "com.android.systemui",
    "com.google.android.gms",
    "com.android.vending",
    "com.google.android.gms",
    "android",
    "com.huawei.android.launcher",
    "com.miui.home",
    "com.oppo.launcher"
  }

  /**
   * `isSystemApp`: the fixed names are consulted only after the lookup
   * succeeds; a failed lookup answers false even for a fixed name.
   */
  predicate IsSystemApp(pkg: string, lookup: Lookup) {
    match lookup(pkg)
    case None => false
    case Some(flags) => flags & FlagSystem != 0 || pkg in SystemPackages
  }

  /** How the receiver reacts to one broadcast. */
  datatype Reaction =
    | Ignored
    | UpdateNoted(pkg: string)
    | RemovalNoted(pkg: string)
    | SkippedSystemApp(pkg: string)
    | LaunchChain(pkg: string, steps: seq<Step>)

  /** `handleAppInstalled`: system applications are skipped, others start a chain at 0. */
  function HandleInstalled(pkg: string, lookup: Lookup, probe: nat -> Probe): (r: Reaction)
    ensures (r.SkippedSystemApp? || r.LaunchChain?) && r.pkg == pkg
    ensures r.LaunchChain? <==> !IsSystemApp(pkg, lookup)
    ensures r.LaunchChain? ==> r.steps == LaunchWithRetry(probe, 0)
  {
    if IsSystemApp(pkg, lookup) then SkippedSystemApp(pkg)
    else LaunchChain(pkg, LaunchWithRetry(probe, 0))
  }

  /** `onReceive`. */
  function OnReceive(b: Broadcast, lookup: Lookup, probe: nat -> Probe): (r: Reaction)
    ensures r.LaunchChain? ==> b.action == PackageAdded && b.packageName == Some(r.pkg) && !b.replacing
    ensures r.UpdateNoted? <==> b.action == PackageReplaced && b.packageName.Some?
    ensures r.RemovalNoted? <==> b.action == PackageRemoved && b.packageName.Some? && !b.replacing
    ensures !r.Ignored? ==> b.packageName == Some(r.pkg)
    ensures r.LaunchChain? ==> r.steps == LaunchWithRetry(probe, 0)
  {
    match b.action
    case PackageAdded =>
      if b.packageName.Some? && !b.replacing then HandleInstalled(b.packageName.value, lookup, probe)
      else Ignored
    case PackageReplaced =>
      if b.packageName.Some? then UpdateNoted(b.packageName.value) else Ignored
    case PackageRemoved =>
      if b.packageName.Some? && !b.replacing then RemovalNoted(b.packageName.value) else Ignored
    case OtherAction => Ignored
  }

  /** A broadcast starts a launch chain iff it announces a fresh install of a non-system package. */
  lemma LaunchChainIff(b: Broadcast, lookup: Lookup, probe: nat -> Probe)
    ensures OnReceive(b, lookup, probe).LaunchChain?
            <==> b.action == PackageAdded && b.packageName.Some? && !b.replacing
                 && !IsSystemApp(b.packageName.value, lookup)
  {
  }

  /** Reinstalls, updates, removals and nameless broadcasts never launch anything. */
  lemma NoLaunchWithoutFreshInstall(b: Broadcast, lookup: Lookup, probe: nat -> Probe)
    requires b.action != PackageAdded || b.replacing || b.packageName.None?
    ensures !OnReceive(b, lookup, probe).LaunchChain?
  {
  }

  /** A package whose lookup reports FLAG_SYSTEM, or a fixed name, is never launched. */
  lemma SystemAppsNeverLaunched(b: Broadcast, lookup: Lookup, probe: nat -> Probe)
    requires b.packageName.Some? && lookup(b.packageName.value).Some?
    requires lookup(b.packageName.value).value & FlagSystem != 0 || b.packageName.value in SystemPackages
    ensures !OnReceive(b, lookup, probe).LaunchChain?
  {
  }

  /** A fixed system name whose lookup fails is not treated as a system application. */
  lemma FailedLookupIsNotSystem(lookup: Lookup)
    requires lookup("android") == None
    ensures "android" in SystemPackages
    ensures !IsSystemApp("android", lookup)
  {
  }

  /** The duplicated entry collapses: the fixed set has seven names. */
  lemma SystemPackagesCount()
    ensures |SystemPackages| == 7
  {
  }
}
