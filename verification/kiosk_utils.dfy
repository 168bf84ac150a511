/**
 * The device-policy side of the kiosk module: entering and leaving
 * lock-task ("kiosk") mode, keeping the lock-task packages in step with the
 * whitelist, the accessibility-service filter that blocks multi-window
 * helpers, and the status predicates that report what is blocked.
 *
 * Every Android call becomes a field update of a `Device` record; the API
 * level is fixed at Q or later, so every version-gated branch is taken.
 */
module KioskUtils {

  import opened Optional
  import opened TextMatch
  import opened SeqFilter
  import opened DevicePolicy
  import KioskWhitelist

  /** The system settings application, whose restriction bundle is set. */
  const SettingsPackage: string := "com.android.settings"

  /** Keys put (as true) into the settings application's restriction bundle. */
  const SettingsResetKeys: seq<string> := [
    "no_factory_reset", "no_network_reset", "no_reset_settings",
    "no_honor_reset", "no_subsettings_reset"
  ]

  const SettingsResetBundle: map<string, bool> := map k | k in SettingsResetKeys :: true

  /** Global settings switched to "0" to hide the vendor reset entries. */
  const HonorResetGlobalKeys: seq<string> := [
    "honor_factory_reset_enabled", "honor_network_reset_enabled",
    "honor_reset_settings_enabled", "settings_reset_options_enabled",
    "factory_reset_from_settings_enabled"
  ]

  const DeviceProvisionedKey: string := "device_provisioned"
  const StayOnWhilePluggedInKey: string := "stay_on_while_plugged_in"
  /** BATTERY_PLUGGED_AC (1) | BATTERY_PLUGGED_USB (2) | BATTERY_PLUGGED_WIRELESS (4), as text. */
  const StayOnAllPlugs: string := "7"
  const EdgeGesturesKey: string := "edge_gestures_enabled"
  const HonorDockBarKey: string := "honor_dock_bar_enabled"

  /** Packages hidden when blocking the side-swipe dock. */
  const DockBarBlockPackages: seq<string> := [
    "com.hihonor.hndockbar", "com.huawei.hwdockbar",
    "com.hihonor.desktop.explorer", "com.hihonor.android.projectmenu"
  ]

  /** Packages inspected when reporting whether the dock is blocked. */
  const DockBarCheckPackages: seq<string> := [
    "com.huawei.hwdockbar", "com.hihonor.hndockbar", "com.hihonor.desktop.explorer"
  ]

  /** Keywords that exclude an accessibility service from the allow-list ("sidebar" twice, as written). */
  const SmartWindowFilterPatterns: seq<string> := [
    "multiwindow", "multi_window", "multi-window",
    "smartwindow", "smart_window", "smart-window",
    "splitscreen", "split_screen", "split-screen",
    "freeform", "free_form", "free-form",
    "floating", "float", "popup",
    "hihonor.smartshot", "hihonor.smartwindow", "hihonor.multiwindow",
    "hihonor.featurelayer", "hihonor.floattasks", "hihonor.stylus.floatmenu",
    "hihonor.desktop.explorer", "hihonor.android.projectmenu",
    "hihonor.hndockbar", "hndockbar", "dock", "dockbar",
    "sidebar", "sideentry", "edge", "swipe",
    "window", "desk", "taskbar", "sidebar"
  ]

  /** Keywords whose presence in an allowed service makes the status report "not blocked". */
  const SmartWindowCheckPatterns: seq<string> := [
    "multiwindow", "smartwindow", "split", "floating", "float",
    "hihonor.floattasks", "hihonor.stylus.floatmenu"
  ]

  const SetupRestrictions: set<Restriction> := {FactoryReset, SafeBoot, AddUser}
  const ResetRestrictions: set<Restriction> := {FactoryReset, NetworkReset, ConfigMobileNetworks}

  /** The eight restrictions that disabling kiosk mode clears. */
  const DisableClearedRestrictions: set<Restriction> := {
    FactoryReset, SafeBoot, AddUser, ConfigCredentials, NetworkReset,
    ConfigBrightness, ConfigMobileNetworks, DebuggingFeatures
  }

  /** Result of a transition: the Boolean the source returns, and the new device. */
  datatype Outcome = Outcome(ok: bool, device: Device)

  /** Result of a whitelist edit, which also yields the new whitelist manager. */
  datatype WhitelistOutcome = WhitelistOutcome(ok: bool, device: Device, whitelist: KioskWhitelist.Manager)

  // ----- status predicates -----

  predicate IsKioskModeActive(d: Device) {
    d.isOwner && d.lockTaskPackages != {}
  }

  /** Number of the three reset-related user restrictions that are set. */
  function ResetRestrictionCount(d: Device): (n: nat)
    ensures n <= 3
    ensures n >= 2 <==> |d.restrictions * {FactoryReset, NetworkReset, ConfigCredentials}| >= 2
  {
    var s := d.restrictions * {FactoryReset, NetworkReset, ConfigCredentials};
    var n := (if FactoryReset in d.restrictions then 1 else 0)
           + (if NetworkReset in d.restrictions then 1 else 0)
           + (if ConfigCredentials in d.restrictions then 1 else 0);
    CardOfSubsetOfThree(s, FactoryReset, NetworkReset, ConfigCredentials);
    n
  }

  lemma CardOfSubsetOfThree<T>(s: set<T>, a: T, b: T, c: T)
    requires a != b && b != c && a != c && s <= {a, b, c}
    ensures |s| == (if a in s then 1 else 0) + (if b in s then 1 else 0) + (if c in s then 1 else 0)
  {
    var sa := if a in s then {a} else {};
    var sb := if b in s then {b} else {};
    var sc := if c in s then {c} else {};
    assert s == sa + sb + sc;
  }

  /** Whether the settings application's bundle carries any reset flag. */
  predicate SettingsResetFlagged(d: Device) {
    exists k | k in SettingsResetKeys :: AppRestrictionFlag(d, SettingsPackage, k)
  }

  /** At least two of the three reset restrictions, or any settings-bundle reset flag. */
  predicate IsHonorResetSettingsBlocked(d: Device) {
    d.isOwner && (ResetRestrictionCount(d) >= 2 || SettingsResetFlagged(d))
  }

  /** Some dock package is missing (not resolvable) or hidden. */
  predicate IsHonorDockBarBlocked(d: Device) {
    d.isOwner && exists p | p in DockBarCheckPackages :: p !in d.installed || p in d.hidden
  }

  /** No allowed accessibility service mentions a multi-window keyword; false when unrestricted. */
  predicate IsSmartWindowBlocked(d: Device) {
    if !d.isOwner then false
    else match d.permittedA11y
      case None => false
      case Some(ps) => !exists i :: 0 <= i < |ps| && MatchesAny(ps[i], SmartWindowCheckPatterns)
  }

  // ----- the accessibility-service filter -----

  /** The allow-list: the services, in order, that mention no filter keyword. */
  function FilterAccessibilityServices(services: seq<string>): (r: seq<string>)
    ensures IsSubsequence(r, services)
    ensures forall s | s in r :: !MatchesAny(s, SmartWindowFilterPatterns)
    ensures forall i | 0 <= i < |services| && !MatchesAny(services[i], SmartWindowFilterPatterns) :: services[i] in r
  {
    Filter(services, (s: string) => !MatchesAny(s, SmartWindowFilterPatterns))
  }

  /** The number of services blocked is the number installed minus the number permitted. */
  lemma BlockedServiceCount(services: seq<string>)
    ensures |services| - |FilterAccessibilityServices(services)|
         == Count(services, (s: string) => MatchesAny(s, SmartWindowFilterPatterns))
  {
    var keep := (s: string) => !MatchesAny(s, SmartWindowFilterPatterns);
    var drop := (s: string) => MatchesAny(s, SmartWindowFilterPatterns);
    FilterPartition(services, keep, drop);
    FilterLength(services, drop);
  }

  // ----- the steps of the enhanced setup -----

  /** Hides the installed dock packages, disables side gestures and the dock switches. */
  function BlockHonorDockBarFloat(d: Device): (r: Device)
    ensures r.hidden == d.hidden + (set p | p in DockBarBlockPackages && p in d.installed)
    ensures r.restrictions == d.restrictions + {SideGestures}
    ensures r.globalSettings.Keys == d.globalSettings.Keys + {EdgeGesturesKey, HonorDockBarKey}
    ensures r.globalSettings[EdgeGesturesKey] == "0" && r.globalSettings[HonorDockBarKey] == "0"
    ensures forall k | k in d.globalSettings && k != EdgeGesturesKey && k != HonorDockBarKey ::
              r.globalSettings[k] == d.globalSettings[k]
    ensures r.(hidden := d.hidden, restrictions := d.restrictions, globalSettings := d.globalSettings) == d
  {
    d.(hidden := d.hidden + (set p | p in DockBarBlockPackages && p in d.installed),
       restrictions := d.restrictions + {SideGestures},
       globalSettings := d.globalSettings[EdgeGesturesKey := "0"][HonorDockBarKey := "0"])
  }

  /** Dock blocking, then the accessibility allow-list from the installed services. */
  function RestrictSmartWindowFeatures(d: Device): (r: Device)
    ensures r.permittedA11y == Some(FilterAccessibilityServices(d.accessibilityServices))
    ensures r.restrictions == d.restrictions + {SideGestures}
    ensures r.hidden == d.hidden + (set p | p in DockBarBlockPackages && p in d.installed)
    ensures r.globalSettings.Keys == d.globalSettings.Keys + {EdgeGesturesKey, HonorDockBarKey}
    ensures r.globalSettings[EdgeGesturesKey] == "0" && r.globalSettings[HonorDockBarKey] == "0"
    ensures forall k | k in d.globalSettings && k != EdgeGesturesKey && k != HonorDockBarKey ::
              r.globalSettings[k] == d.globalSettings[k]
    ensures r.(hidden := d.hidden, restrictions := d.restrictions, globalSettings := d.globalSettings,
               permittedA11y := d.permittedA11y) == d
  {
    var d1 := BlockHonorDockBarFloat(d);
    d1.(permittedA11y := Some(FilterAccessibilityServices(d1.accessibilityServices)))
  }

  /** Settings-bundle reset flags, reset global settings and the reset restrictions. */
  function BlockHonorResetSettings(d: Device): (r: Device)
    ensures r.appRestrictions == d.appRestrictions[SettingsPackage := SettingsResetBundle]
    ensures r.restrictions == d.restrictions + ResetRestrictions
    ensures forall k | k in HonorResetGlobalKeys :: k in r.globalSettings && r.globalSettings[k] == "0"
    ensures DeviceProvisionedKey in r.globalSettings && r.globalSettings[DeviceProvisionedKey] == "1"
    ensures forall k | k in d.globalSettings && k != DeviceProvisionedKey && k !in HonorResetGlobalKeys ::
              k in r.globalSettings && r.globalSettings[k] == d.globalSettings[k]
    ensures r.globalSettings.Keys == d.globalSettings.Keys + {DeviceProvisionedKey} + set k | k in HonorResetGlobalKeys
    ensures r.(appRestrictions := d.appRestrictions, globalSettings := d.globalSettings,
               restrictions := d.restrictions) == d
  {
    d.(appRestrictions := d.appRestrictions[SettingsPackage := SettingsResetBundle],
       globalSettings := d.globalSettings[DeviceProvisionedKey := "1"]
                         + (map k | k in HonorResetGlobalKeys :: "0"),
       restrictions := d.restrictions + ResetRestrictions)
  }

  /** The reset restrictions, the reset-settings block and the multi-window restrictions. */
  function RestrictSpecificSettings(d: Device): (r: Device)
    ensures r.restrictions == d.restrictions + ResetRestrictions + {SideGestures}
    ensures r.permittedA11y == Some(FilterAccessibilityServices(d.accessibilityServices))
    ensures SettingsPackage in r.appRestrictions && r.appRestrictions[SettingsPackage] == SettingsResetBundle
    ensures r.appRestrictions == d.appRestrictions[SettingsPackage := SettingsResetBundle]
    ensures r.hidden == d.hidden + (set p | p in DockBarBlockPackages && p in d.installed)
    ensures forall k | k in HonorResetGlobalKeys :: k in r.globalSettings && r.globalSettings[k] == "0"
    ensures r.globalSettings.Keys == d.globalSettings.Keys + {DeviceProvisionedKey, EdgeGesturesKey, HonorDockBarKey}
                                     + set k | k in HonorResetGlobalKeys
    ensures EdgeGesturesKey in r.globalSettings && r.globalSettings[EdgeGesturesKey] == "0"
    ensures HonorDockBarKey in r.globalSettings && r.globalSettings[HonorDockBarKey] == "0"
    ensures DeviceProvisionedKey in r.globalSettings && r.globalSettings[DeviceProvisionedKey] == "1"
    ensures forall k | k in d.globalSettings && k != DeviceProvisionedKey && k != EdgeGesturesKey
                       && k != HonorDockBarKey && k !in HonorResetGlobalKeys ::
              r.globalSettings[k] == d.globalSettings[k]
    ensures r.lockTaskPackages == d.lockTaskPackages && r.isOwner == d.isOwner
    ensures r.(restrictions := d.restrictions, permittedA11y := d.permittedA11y, appRestrictions := d.appRestrictions,
               hidden := d.hidden, globalSettings := d.globalSettings) == d
  {
    var d1 := BlockHonorResetSettings(d.(restrictions := d.restrictions + ResetRestrictions));
    RestrictSmartWindowFeatures(d1)
  }

  // ----- transitions -----

  /**
   * Enters the enhanced kiosk configuration. Without device-owner rights it
   * reports false and touches nothing.
   */
  function SetupEnhancedKioskMode(d: Device, wl: KioskWhitelist.Manager): (r: Outcome)
    ensures !d.isOwner ==> r == Outcome(false, d)
    ensures d.isOwner ==> r.ok
    ensures d.isOwner ==> r.device.lockTaskPackages == KioskWhitelist.KioskPackages(wl, d.installed)
    ensures d.isOwner ==> r.device.lockTaskFeatures == {SystemInfo, Home}
    ensures d.isOwner ==> r.device.restrictions
                          == d.restrictions + SetupRestrictions + ResetRestrictions + {SideGestures}
    ensures d.isOwner ==> r.device.hidden
                          == d.hidden + (set p | p in DockBarBlockPackages && p in d.installed)
    ensures d.isOwner ==> r.device.permittedA11y == Some(FilterAccessibilityServices(d.accessibilityServices))
    ensures d.isOwner ==> r.device.appRestrictions == d.appRestrictions[SettingsPackage := SettingsResetBundle]
    ensures d.isOwner ==> r.device.keyguardDisabled && wl.ownPackage !in r.device.uninstallBlocked
    ensures d.isOwner ==> r.device.uninstallBlocked == d.uninstallBlocked - {wl.ownPackage}
    ensures r.device.isOwner == d.isOwner && r.device.installed == d.installed
    ensures r.device.accessibilityServices == d.accessibilityServices
  {
    if !d.isOwner then Outcome(false, d)
    else
      var d1 := d.(lockTaskPackages := KioskWhitelist.KioskPackages(wl, d.installed),
                   lockTaskFeatures := {SystemInfo, Home},
                   restrictions := d.restrictions + SetupRestrictions);
      var d2 := RestrictSpecificSettings(d1);
      var d3 := d2.(uninstallBlocked := d2.uninstallBlocked - {wl.ownPackage},
                    globalSettings := d2.globalSettings[StayOnWhilePluggedInKey := StayOnAllPlugs],
                    keyguardDisabled := true);
      Outcome(true, d3)
  }

  /** Re-sets the lock-task packages from the whitelist; owner only. */
  function RefreshLockTaskPackages(d: Device, wl: KioskWhitelist.Manager): (r: Outcome)
    ensures r.ok == d.isOwner
    ensures !d.isOwner ==> r.device == d
    ensures d.isOwner ==> r.device == d.(lockTaskPackages := KioskWhitelist.KioskPackages(wl, d.installed))
  {
    if !d.isOwner then Outcome(false, d)
    else Outcome(true, d.(lockTaskPackages := KioskWhitelist.KioskPackages(wl, d.installed)))
  }

  /**
   * Leaves kiosk mode: empties the lock-task packages, clears the features,
   * the eight listed restrictions and the accessibility allow-list, and
   * re-enables the keyguard. Hidden packages, the side-gesture restriction and
   * the settings bundle are left as they are.
   */
  function DisableKioskMode(d: Device): (r: Outcome)
    ensures r.ok == d.isOwner
    ensures !d.isOwner ==> r.device == d
    ensures d.isOwner ==> r.device.lockTaskPackages == {} && r.device.lockTaskFeatures == {}
    ensures d.isOwner ==> r.device.restrictions == d.restrictions - DisableClearedRestrictions
    ensures d.isOwner ==> r.device.permittedA11y == None && !r.device.keyguardDisabled
    ensures r.device.hidden == d.hidden && r.device.appRestrictions == d.appRestrictions
    ensures r.device.isOwner == d.isOwner && r.device.installed == d.installed
    ensures r.device.(lockTaskPackages := d.lockTaskPackages, lockTaskFeatures := d.lockTaskFeatures,
                      restrictions := d.restrictions, permittedA11y := d.permittedA11y,
                      keyguardDisabled := d.keyguardDisabled) == d
  {
    if !d.isOwner then Outcome(false, d)
    else Outcome(true, d.(lockTaskPackages := {},
                          lockTaskFeatures := {},
                          restrictions := d.restrictions - DisableClearedRestrictions,
                          permittedA11y := None,
                          keyguardDisabled := false))
  }

  /** The settings screens that can be opened; whether one opens is an input. */
  datatype SettingsScreen = MainSettings | DeveloperOptions | ApplicationSettings | DeviceAdminSettings

  /**
   * Opens the screen named by `target`. The developer-options and
   * application screens fall back to the main settings screen when they fail;
   * the device-admin screen has no fallback, and the main screen is not retried.
   */
  function OpenSettingsTarget(target: string, opens: SettingsScreen -> bool): (ok: bool)
    ensures ok ==> opens(MainSettings) || opens(DeveloperOptions) || opens(ApplicationSettings) || opens(DeviceAdminSettings)
    ensures target == "developer" ==> (ok <==> opens(DeveloperOptions) || opens(MainSettings))
    ensures target == "applications" ==> (ok <==> opens(ApplicationSettings) || opens(MainSettings))
    ensures target == "device_admin" ==> (ok <==> opens(DeviceAdminSettings))
    ensures target !in {"developer", "applications", "device_admin"} ==> (ok <==> opens(MainSettings))
    ensures target != "device_admin" && opens(MainSettings) ==> ok
  {
    match target
    case "developer" => opens(DeveloperOptions) || opens(MainSettings)
    case "applications" => opens(ApplicationSettings) || opens(MainSettings)
    case "device_admin" => opens(DeviceAdminSettings)
    case _ => opens(MainSettings)
  }

  /** Empties the lock-task packages and opens a settings screen; owner only. */
  function TemporaryExitForSettings(d: Device, target: string, opens: SettingsScreen -> bool): (r: Outcome)
    ensures !d.isOwner ==> r == Outcome(false, d)
    ensures d.isOwner ==> r.device == d.(lockTaskPackages := {})
    ensures d.isOwner ==> r.ok == OpenSettingsTarget(target, opens)
  {
    if !d.isOwner then Outcome(false, d)
    else Outcome(OpenSettingsTarget(target, opens), d.(lockTaskPackages := {}))
  }

  /**
   * More screens opening never turns a success into a failure, and a target
   * succeeds only if the screen it asks for or its fallback opens.
   */
  lemma OpenSettingsMonotone(d: Device, target: string, opens: SettingsScreen -> bool, more: SettingsScreen -> bool)
    requires forall s :: opens(s) ==> more(s)
    ensures OpenSettingsTarget(target, opens) ==> OpenSettingsTarget(target, more)
    ensures TemporaryExitForSettings(d, target, opens).ok ==> TemporaryExitForSettings(d, target, more).ok
  {
  }

  function ReenterKioskMode(d: Device, wl: KioskWhitelist.Manager): (r: Outcome)
    ensures r.ok == d.isOwner
    ensures !d.isOwner ==> r.device == d
    ensures d.isOwner ==> r.device.lockTaskPackages == KioskWhitelist.KioskPackages(wl, d.installed)
    ensures r.device.(lockTaskPackages := d.lockTaskPackages) == d
  {
    if !d.isOwner then Outcome(false, d)
    else RefreshLockTaskPackages(d, wl)
  }

  /**
   * Adds a package to the whitelist; when the whitelist changed and kiosk
   * mode is active, the lock-task packages are re-set from the new whitelist.
   */
  function AddAppToWhitelist(d: Device, wl: KioskWhitelist.Manager, pkg: string): (r: WhitelistOutcome)
    requires KioskWhitelist.Valid(wl)
    ensures r.whitelist == KioskWhitelist.Add(wl, pkg).manager
    ensures r.ok <==> !KioskWhitelist.IsInWhitelist(wl, pkg)
    ensures r.ok && IsKioskModeActive(d) ==>
              r.device == d.(lockTaskPackages := KioskWhitelist.KioskPackages(r.whitelist, d.installed))
    ensures !(r.ok && IsKioskModeActive(d)) ==> r.device == d
    ensures r.ok && IsKioskModeActive(d) && pkg in d.installed ==> pkg in r.device.lockTaskPackages
  {
    var c := KioskWhitelist.Add(wl, pkg);
    if c.changed && IsKioskModeActive(d) then
      WhitelistOutcome(true, RefreshLockTaskPackages(d, c.manager).device, c.manager)
    else
      WhitelistOutcome(c.changed, d, c.manager)
  }

  /** The removal counterpart of `AddAppToWhitelist`. */
  function RemoveAppFromWhitelist(d: Device, wl: KioskWhitelist.Manager, pkg: string): (r: WhitelistOutcome)
    requires KioskWhitelist.Valid(wl)
    ensures r.whitelist == KioskWhitelist.Remove(wl, pkg).manager
    ensures r.ok <==> pkg in wl.custom
    ensures r.ok && IsKioskModeActive(d) ==>
              r.device == d.(lockTaskPackages := KioskWhitelist.KioskPackages(r.whitelist, d.installed))
    ensures !(r.ok && IsKioskModeActive(d)) ==> r.device == d
    ensures r.ok && IsKioskModeActive(d) && pkg !in KioskWhitelist.SystemWhitelist(wl.ownPackage) ==>
              pkg !in r.device.lockTaskPackages
  {
    var c := KioskWhitelist.Remove(wl, pkg);
    if c.changed && IsKioskModeActive(d) then
      WhitelistOutcome(true, RefreshLockTaskPackages(d, c.manager).device, c.manager)
    else
      WhitelistOutcome(c.changed, d, c.manager)
  }

  // ----- properties relating several operations -----

  /** After a successful setup the reset entries count as blocked. */
  lemma SetupBlocksHonorReset(d: Device, wl: KioskWhitelist.Manager)
    requires d.isOwner
    ensures {FactoryReset, SafeBoot, AddUser, NetworkReset} <= SetupEnhancedKioskMode(d, wl).device.restrictions
    ensures IsHonorResetSettingsBlocked(SetupEnhancedKioskMode(d, wl).device)
  {
    var d' := SetupEnhancedKioskMode(d, wl).device;
    assert AppRestrictionFlag(d', SettingsPackage, SettingsResetKeys[0]);
  }

  /** Setup activates kiosk mode whenever the application itself is installed. */
  lemma SetupActivatesKiosk(d: Device, wl: KioskWhitelist.Manager)
    requires d.isOwner && KioskWhitelist.Valid(wl) && wl.ownPackage in d.installed
    ensures IsKioskModeActive(SetupEnhancedKioskMode(d, wl).device)
  {
    assert wl.ownPackage in SetupEnhancedKioskMode(d, wl).device.lockTaskPackages;
  }

  /**
   * After setup the dock always counts as blocked: each checked package is
   * either missing or among the hidden ones.
   */
  lemma SetupBlocksDockBar(d: Device, wl: KioskWhitelist.Manager)
    requires d.isOwner
    ensures IsHonorDockBarBlocked(SetupEnhancedKioskMode(d, wl).device)
  {
    var r := SetupEnhancedKioskMode(d, wl).device;
    var p := "com.huawei.hwdockbar";
    assert p == DockBarBlockPackages[1] && p == DockBarCheckPackages[0];
    if p in d.installed {
      assert p in (set q | q in DockBarBlockPackages && q in d.installed);
      assert p in r.hidden;
    }
    assert p !in r.installed || p in r.hidden;
  }

  /** The dock check reports "blocked" as soon as one checked package is absent, hidden or not. */
  lemma DockBarBlockedByAbsence(d: Device)
    requires d.isOwner && "com.huawei.hwdockbar" !in d.installed
    ensures IsHonorDockBarBlocked(d)
  {
    assert DockBarCheckPackages[0] == "com.huawei.hwdockbar";
  }

  /** Both ways of leaving kiosk mode leave it inactive, whatever the starting device. */
  lemma ExitsDeactivateKiosk(d: Device, target: string, opens: SettingsScreen -> bool)
    ensures !IsKioskModeActive(DisableKioskMode(d).device)
    ensures !IsKioskModeActive(TemporaryExitForSettings(d, target, opens).device)
  {
  }

  /** A temporary exit followed by re-entry restores a device whose lock-task list matched the whitelist. */
  lemma ExitReenterRoundTrip(d: Device, wl: KioskWhitelist.Manager, target: string, opens: SettingsScreen -> bool)
    requires d.isOwner
    requires d.lockTaskPackages == KioskWhitelist.KioskPackages(wl, d.installed)
    ensures ReenterKioskMode(TemporaryExitForSettings(d, target, opens).device, wl) == Outcome(true, d)
  {
  }

  /**
   * Disabling kiosk mode after setup leaves some blocks behind: the settings
   * bundle keeps the reset entries "blocked", the side-gesture restriction
   * survives and the dock packages stay hidden; only the accessibility
   * allow-list is lifted.
   */
  lemma DisableLeavesBlocks(d: Device, wl: KioskWhitelist.Manager)
    requires d.isOwner
    ensures var after := DisableKioskMode(SetupEnhancedKioskMode(d, wl).device).device;
            && !IsKioskModeActive(after)
            && IsHonorResetSettingsBlocked(after)
            && SideGestures in after.restrictions
            && IsHonorDockBarBlocked(after)
            && !IsSmartWindowBlocked(after)
  {
    var setup := SetupEnhancedKioskMode(d, wl).device;
    assert SideGestures in setup.restrictions;
    assert AppRestrictionFlag(setup, SettingsPackage, SettingsResetKeys[0]);
    SetupBlocksDockBar(d, wl);
    DisableKeepsBlocks(setup);
  }

  /** What disabling leaves in place on any owner device that carries the blocks. */
  lemma DisableKeepsBlocks(s: Device)
    requires s.isOwner && SideGestures in s.restrictions && IsHonorDockBarBlocked(s)
    requires AppRestrictionFlag(s, SettingsPackage, SettingsResetKeys[0])
    ensures var after := DisableKioskMode(s).device;
            && !IsKioskModeActive(after)
            && IsHonorResetSettingsBlocked(after)
            && SideGestures in after.restrictions
            && IsHonorDockBarBlocked(after)
            && !IsSmartWindowBlocked(after)
  {
    var after := DisableKioskMode(s).device;
    assert AppRestrictionFlag(after, SettingsPackage, SettingsResetKeys[0]);
  }

  /** Every check keyword except "split" is also a filter keyword. */
  lemma CheckPatternsFiltered(k: nat)
    requires k < |SmartWindowCheckPatterns| && k != 2
    ensures SmartWindowCheckPatterns[k] in SmartWindowFilterPatterns
  {
    assert SmartWindowFilterPatterns[0] == "multiwindow";
    assert SmartWindowFilterPatterns[3] == "smartwindow";
    assert SmartWindowFilterPatterns[12] == "floating";
    assert SmartWindowFilterPatterns[13] == "float";
    assert SmartWindowFilterPatterns[19] == "hihonor.floattasks";
    assert SmartWindowFilterPatterns[20] == "hihonor.stylus.floatmenu";
  }

  /**
   * On an allow-list produced by the filter, the status check reduces to one
   * keyword: no allowed service matches a check keyword iff none mentions "split".
   */
  lemma CheckOnFilteredList(ps: seq<string>)
    requires forall s | s in ps :: !MatchesAny(s, SmartWindowFilterPatterns)
    ensures (!exists i :: 0 <= i < |ps| && MatchesAny(ps[i], SmartWindowCheckPatterns))
            <==> (forall i | 0 <= i < |ps| :: !ContainsIgnoreCase(ps[i], "split"))
  {
    assert SmartWindowCheckPatterns[2] == "split";
    if forall i | 0 <= i < |ps| :: !ContainsIgnoreCase(ps[i], "split") {
      forall i, k | 0 <= i < |ps| && 0 <= k < |SmartWindowCheckPatterns|
        ensures !ContainsIgnoreCase(ps[i], SmartWindowCheckPatterns[k])
      {
        if k != 2 {
          CheckPatternsFiltered(k);
          assert ps[i] in ps;
        }
      }
    }
  }

  /**
   * After setup the status check reduces to one keyword: the multi-window
   * feature counts as blocked iff no allowed service mentions "split".
   */
  lemma SmartWindowAfterSetup(d: Device, wl: KioskWhitelist.Manager)
    requires d.isOwner
    ensures var ps := FilterAccessibilityServices(d.accessibilityServices);
            (IsSmartWindowBlocked(SetupEnhancedKioskMode(d, wl).device) <==>
               forall i | 0 <= i < |ps| :: !ContainsIgnoreCase(ps[i], "split"))
  {
    var ps := FilterAccessibilityServices(d.accessibilityServices);
    var r := SetupEnhancedKioskMode(d, wl).device;
    assert r.isOwner && r.permittedA11y == Some(ps);
    CheckOnFilteredList(ps);
  }

  /** A service name the filter keeps although it mentions "split". */
  const GapService: string := "a.split/.Split"

  /** A character of each filter keyword that `GapService` lacks in both cases. */
  const GapWitnessChars: seq<char> := [
    'm', 'm', 'm', 'm', 'm', 'm', 'c', 'c', 'c', 'f', 'f', 'f', 'f', 'f', 'o',
    'h', 'h', 'h', 'h', 'h', 'h', 'h', 'h', 'h', 'h', 'd', 'd', 'd', 'd', 'e', 'w',
    'w', 'd', 'k', 'd'
  ]

  lemma FilterPatternsLowerCase()
    ensures forall k | 0 <= k < |SmartWindowFilterPatterns| :: NoUpper(SmartWindowFilterPatterns[k])
  {
  }

  lemma GapWitnessCharsInPatterns()
    ensures |GapWitnessChars| == |SmartWindowFilterPatterns|
    ensures forall k | 0 <= k < |SmartWindowFilterPatterns| ::
              GapWitnessChars[k] in SmartWindowFilterPatterns[k]
  {
  }

  lemma GapWitnessCharsAbsent()
    ensures forall k | 0 <= k < |GapWitnessChars| ::
              GapWitnessChars[k] !in GapService && UpperChar(GapWitnessChars[k]) !in GapService
  {
  }

  lemma GapServicePassesFilter()
    ensures !MatchesAny(GapService, SmartWindowFilterPatterns)
    ensures ContainsIgnoreCase(GapService, "split")
  {
    FilterPatternsLowerCase();
    GapWitnessCharsInPatterns();
    GapWitnessCharsAbsent();
    forall k | 0 <= k < |SmartWindowFilterPatterns|
      ensures !ContainsIgnoreCase(GapService, SmartWindowFilterPatterns[k])
    {
      NotContainsIgnoreCaseMissingChar(GapService, SmartWindowFilterPatterns[k], GapWitnessChars[k]);
    }
    assert NoUpper("split");
    LowerOfNoUpper("split");
    assert Lower(GapService)[2..7] == "split";
    ContainsAt(Lower(GapService), "split", 2);
  }

  /**
   * Filtering does not imply that the status check reports "blocked": with
   * `GapService` installed, setup keeps it allowed and the check reports the
   * multi-window feature as not blocked.
   */
  lemma SmartWindowFilterGap(d: Device, wl: KioskWhitelist.Manager)
    requires d.isOwner && GapService in d.accessibilityServices
    ensures GapService in FilterAccessibilityServices(d.accessibilityServices)
    ensures !IsSmartWindowBlocked(SetupEnhancedKioskMode(d, wl).device)
  {
    GapServicePassesFilter();
    var i :| 0 <= i < |d.accessibilityServices| && d.accessibilityServices[i] == GapService;
    var ps := FilterAccessibilityServices(d.accessibilityServices);
    assert GapService in ps;
    var j :| 0 <= j < |ps| && ps[j] == GapService;
    SmartWindowAfterSetup(d, wl);
  }
}
