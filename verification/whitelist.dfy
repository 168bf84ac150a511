/**
 * The kiosk whitelist: a fixed system set (with the application's own package
 * added), a changeable custom set, and the full whitelist that the manager
 * caches as their union. Persistence of the custom set and the singleton are
 * not modelled; the manager is a value and every operation returns the new one.
 */
module KioskWhitelist {

  /**
   * The system whitelist literal exactly as written, in order. One entry,
   * "com.android.providers.settings", appears twice (indices 88 and 115).
   */
  const BaseSystemList: seq<string> := [
      "com.tencent.mm",
      "com.tencent.wework",
      "com.quark.browser",
      "com.baidu.netdisk",
      "com.jingzhunxue.aicoach",
      "com.jingzhunxue.tifenben",
      "com.android.inputmethod.latin",
      "cn.wps.moffice_eng",
      "com.android.modulemetadata",
      "com.android.connectivity.resources",
      "com.android.server.deviceconfig.resources",
      "com.qualcomm.qti.cne",
      "com.android.dreams.phototable",
      "com.android.providers.contacts",
      "com.android.dreams.basic",
      "com.android.companiondevicemanager",
      "com.android.cts.priv.ctsshim",
      "com.android.mms.service",
      "com.android.providers.downloads",
      "com.android.bluetoothmidiservice",
      "com.android.credentialmanager",
      "com.android.networkstack",
      "com.android.networkstack.overlay",
      "android.ext.shared",
      "com.android.networkstack.tethering",
      "com.android.keychain",
      "com.android.virtualmachine.res",
      "com.android.shell",
      "com.android.inputdevices",
      "com.qti.dpmserviceapp",
      "com.android.sharedstoragebackup",
      "com.android.providers.calendar",
      "com.android.incallui",
      "com.android.frameworkres.overlay",
      "com.android.providers.blockednumber",
      "com.android.statementservice",
      "com.android.printservice.recommendation",
      "com.android.proxyhandler",
      "com.android.safetycenter.resources",
      "com.android.managedprovisioning",
      "com.android.emergency",
      "com.android.healthconnect.controller",
      "com.android.cellbroadcastreceiver.module",
      "com.qualcomm.location",
      "com.unionpay.tsmservice",
      "com.android.backupconfirm",
      "com.android.mtp",
      "com.android.cellbroadcastservice",
      "com.android.appsearch.apk",
      "com.android.internal.systemui.navbar.hide",
      "com.android.systemui.overlay",
      "com.android.wallpapercropper",
      "com.android.systemui",
      "com.android.internal.systemui.navbar.gestural",
      "com.qualcomm.timeservice",
      "cn.honor.qinxuan",
      "com.android.wallpaperbackup",
      "com.android.internal.systemui.navbar.threebutton",
      "com.android.localtransport",
      "android",
      "com.android.rkpdapp",
      "com.android.permissioncontroller",
      "com.baidu.swan",
      "com.android.se",
      "com.android.pacprocessor",
      "com.android.wifi.resources.overlay",
      "com.honor.yoyoappsug",
      "com.android.providers.media.module",
      "com.android.settings",
      "com.android.cameraextensions",
      "com.android.devicelockcontroller",
      "com.android.documentsui",
      "com.android.adservices.api",
      "com.android.health.connect.backuprestore",
      "vendor.qti.hardware.cacert.server",
      "com.android.networkstack.tethering.overlay",
      "com.android.providers.downloads.ui",
      "com.android.ons",
      "com.android.intentresolver",
      "com.android.certinstaller",
      "android.ext.services",
      "com.android.wifi.resources",
      "com.android.wifi.dialog",
      "com.android.captiveportallogin",
      "com.android.providers.telephony",
      "com.android.wallpaper.livepicker",
      "com.android.sdksandbox",
      "vendor.qti.iwlan",
      "com.android.providers.settings",
      "com.android.phone",
      "com.android.location.fused",
      "com.android.vpndialogs",
      "com.android.ondevicepersonalization.services",
      "com.android.htmlviewer",
      "com.qti.qcc",
      "com.hihonor.printservice",
      "com.android.providers.userdictionary",
      "com.android.providers.contactkeys",
      "com.android.cts.ctsshim",
      "com.android.bluetooth",
      "com.hihonor.cameraextension",
      "com.android.packageinstaller",
      "com.hihonor.photos",
      "com.android.printspooler",
      "androidhnext",
      "com.android.providers.partnerbookmarks",
      "com.android.dynsystem",
      "com.android.microdroid.empty_payload",
      "com.android.hotspot2.osulogin",
      "com.android.externalstorage",
      "vendor.qti.imsdatachannel",
      "com.android.server.telecom",
      "com.coloros.wirelesssettings",
      "com.coloros.simsettings",
      "com.android.settings.intelligence",
      "com.android.providers.settings",
      "com.android.theme.icon_pack.filled.settings",
      "com.android.theme.icon_pack.circular.settings",
      "com.android.theme.icon_pack.rounded.settings",
      "com.oplus.wirelesssettings",
      "com.android.settings.overlay.common",
      "com.oplus.camera",
      "com.coloros.gallery3d",
      "com.coloros.filemanager"
  ]

  function ToSet<T>(s: seq<T>): set<T> {
    set x | x in s
  }

  /** The literal read as a set: the duplicate entry collapses. */
  const BaseSystemWhitelist: set<string> := ToSet(BaseSystemList)

  /** The fixed system set plus the application's own package. */
  function SystemWhitelist(ownPackage: string): (r: set<string>)
    ensures ownPackage in r
    ensures forall p | p in BaseSystemList :: p in r
    ensures forall p | p in r :: p == ownPackage || p in BaseSystemList
  {
    BaseSystemWhitelist + {ownPackage}
  }

  /**
   * The manager's state: the own package name, the custom set and the cached
   * full whitelist.
   */
  datatype Manager = Manager(ownPackage: string, custom: set<string>, full: set<string>)

  /** The cache invariant: the full whitelist is the system set plus the custom set. */
  predicate Valid(m: Manager) {
    m.full == SystemWhitelist(m.ownPackage) + m.custom
  }

  /** Custom entries are never system entries. */
  predicate Disjoint(m: Manager) {
    m.custom !! SystemWhitelist(m.ownPackage)
  }

  /** Rebuilds the cached full whitelist from a new custom set. */
  function Refresh(ownPackage: string, custom: set<string>): (m: Manager)
    ensures Valid(m) && m.ownPackage == ownPackage && m.custom == custom
  {
    Manager(ownPackage, custom, SystemWhitelist(ownPackage) + custom)
  }

  /** Construction: loads a persisted custom set and fills the cache. */
  function Load(ownPackage: string, persisted: set<string>): (m: Manager)
    ensures Valid(m)
    ensures m.custom == persisted && m.ownPackage == ownPackage
    ensures forall p :: p in m.full <==> p == ownPackage || p in BaseSystemList || p in persisted
  {
    Refresh(ownPackage, persisted)
  }

  function IsInWhitelist(m: Manager, p: string): (r: bool)
    ensures Valid(m) ==> (r <==> p == m.ownPackage || p in BaseSystemList || p in m.custom)
  {
    p in m.full
  }

  /** A manager operation's result: whether the custom set changed, and the new manager. */
  datatype Change = Change(changed: bool, manager: Manager)

  /**
   * Adds the requested packages that are not yet whitelisted to the custom set.
   * Reports false, and changes nothing, when every request is already
   * whitelisted (in particular for an empty request).
   */
  function AddAll(m: Manager, names: seq<string>): (r: Change)
    requires Valid(m)
    ensures Valid(r.manager) && r.manager.ownPackage == m.ownPackage
    ensures r.changed <==> exists p | p in names :: !IsInWhitelist(m, p)
    ensures !r.changed ==> r.manager == m
    ensures r.manager.custom == m.custom + (set p | p in names && p !in m.full)
    ensures forall p | p in names :: IsInWhitelist(r.manager, p)
    ensures forall p | p in r.manager.custom && p !in m.custom :: p !in SystemWhitelist(m.ownPackage)
    ensures Disjoint(m) ==> Disjoint(r.manager)
  {
    var toAdd := set p | p in names && !IsInWhitelist(m, p);
    if toAdd == {} then Change(false, m)
    else if toAdd <= m.custom then Change(false, m)
    else Change(true, Refresh(m.ownPackage, m.custom + toAdd))
  }

  /** The single-package overload. */
  function Add(m: Manager, p: string): (r: Change)
    requires Valid(m)
    ensures Valid(r.manager) && r.manager.ownPackage == m.ownPackage
    ensures r.changed <==> !IsInWhitelist(m, p)
    ensures IsInWhitelist(r.manager, p)
    ensures r.changed ==> r.manager.custom == m.custom + {p}
    ensures !r.changed ==> r.manager == m
  {
    AddAll(m, [p])
  }

  /**
   * Removes the requested packages from the custom set only. Reports true iff
   * at least one of them was in it.
   */
  function RemoveAll(m: Manager, names: seq<string>): (r: Change)
    requires Valid(m)
    ensures Valid(r.manager) && r.manager.ownPackage == m.ownPackage
    ensures r.changed <==> exists p | p in names :: p in m.custom
    ensures !r.changed ==> r.manager == m
    ensures r.manager.custom == m.custom - ToSet(names)
    ensures forall p | p in SystemWhitelist(m.ownPackage) :: IsInWhitelist(r.manager, p)
    ensures Disjoint(m) ==> Disjoint(r.manager)
  {
    var remaining := m.custom - ToSet(names);
    if remaining == m.custom then Change(false, m)
    else Change(true, Refresh(m.ownPackage, remaining))
  }

  /** The single-package overload. */
  function Remove(m: Manager, p: string): (r: Change)
    requires Valid(m)
    ensures Valid(r.manager) && r.manager.ownPackage == m.ownPackage
    ensures r.changed <==> p in m.custom
    ensures !r.changed ==> r.manager == m
    ensures r.manager.custom == m.custom - {p}
  {
    assert ToSet([p]) == {p};
    RemoveAll(m, [p])
  }

  /**
   * The packages handed to lock-task mode: the whitelisted packages that the
   * package manager can resolve (`installed`).
   */
  function KioskPackages(m: Manager, installed: set<string>): (r: set<string>)
    ensures r <= m.full && r <= installed
    ensures forall p | p in m.full && p in installed :: p in r
    ensures Valid(m) && m.ownPackage in installed ==> m.ownPackage in r
  {
    set p | p in m.full && p in installed
  }

  /** The three counts reported by the statistics text. */
  datatype Stats = Stats(systemCount: nat, customCount: nat, total: nat)

  function GetStats(m: Manager): (r: Stats)
    ensures r.systemCount == |SystemWhitelist(m.ownPackage)|
    ensures r.customCount == |m.custom| && r.total == |m.full|
    ensures Valid(m) ==> r.systemCount <= r.total && r.customCount <= r.total
    ensures Valid(m) && Disjoint(m) ==> r.total == r.systemCount + r.customCount
  {
    UnionCard(SystemWhitelist(m.ownPackage), m.custom);
    UnionCard(m.custom, SystemWhitelist(m.ownPackage));
    assert m.custom + SystemWhitelist(m.ownPackage) == SystemWhitelist(m.ownPackage) + m.custom;
    Stats(|SystemWhitelist(m.ownPackage)|, |m.custom|, |m.full|)
  }

  lemma UnionCard<T>(a: set<T>, b: set<T>)
    ensures |a| <= |a + b|
  {
    assert a + b == a + (b - a);
    assert a !! (b - a);
  }

  /** The own package and every system entry are whitelisted in every valid state. */
  lemma SystemAlwaysWhitelisted(m: Manager, p: string)
    requires Valid(m)
    requires p == m.ownPackage || p in BaseSystemList
    ensures IsInWhitelist(m, p)
  {
  }

  /** A second add of the same package reports false and changes nothing. */
  lemma AddIdempotent(m: Manager, p: string)
    requires Valid(m)
    ensures !Add(Add(m, p).manager, p).changed
    ensures Add(Add(m, p).manager, p).manager == Add(m, p).manager
  {
  }

  /** Adding a package that was not whitelisted and removing it again restores the manager. */
  lemma AddRemoveRoundTrip(m: Manager, p: string)
    requires Valid(m) && !IsInWhitelist(m, p)
    ensures Add(m, p).changed
    ensures Remove(Add(m, p).manager, p).changed
    ensures Remove(Add(m, p).manager, p).manager == m
  {
    var added := Add(m, p).manager;
    assert added.custom == m.custom + {p};
    assert p !in m.custom;
    assert added.custom - {p} == m.custom;
  }

  lemma {:induction false} ToSetCard<T>(s: seq<T>)
    ensures |ToSet(s)| <= |s|
  {
    if |s| > 0 {
      ToSetCard(s[1..]);
      assert ToSet(s) == {s[0]} + ToSet(s[1..]);
    }
  }

  /** A list with a repeated element has fewer distinct elements than entries. */
  lemma {:induction false} ToSetCardDuplicate<T>(s: seq<T>, i: nat, j: nat)
    requires i < j < |s| && s[i] == s[j]
    ensures |ToSet(s)| < |s|
  {
    assert ToSet(s) == {s[0]} + ToSet(s[1..]);
    if i == 0 {
      assert s[0] == s[1..][j - 1];
      assert ToSet(s) == ToSet(s[1..]);
      ToSetCard(s[1..]);
    } else {
      ToSetCardDuplicate(s[1..], i - 1, j - 1);
    }
  }

  /** The literal has 124 entries, but the system set has fewer members: the duplicate collapses. */
  lemma SystemLiteralDuplicateCollapses()
    ensures |BaseSystemList| == 124
    ensures BaseSystemList[88] == BaseSystemList[115] == "com.android.providers.settings"
    ensures |BaseSystemWhitelist| < |BaseSystemList|
  {
    ToSetCardDuplicate(BaseSystemList, 88, 115);
  }
}
