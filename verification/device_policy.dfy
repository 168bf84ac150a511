/**
 * The device state that the kiosk module reads and writes through Android's
 * DevicePolicyManager and PackageManager, reduced to an immutable record.
 * Each field stands for one piece of platform state; the transitions in
 * `KioskUtils` are pure functions from one record to the next.
 */
module DevicePolicy {

  import opened Optional

  /** User restrictions (`UserManager.DISALLOW_*`, plus the raw "no_side_gestures" key). */
  datatype Restriction =
    | FactoryReset          // "no_factory_reset"
    | SafeBoot              // "no_safe_boot"
    | AddUser               // "no_add_user"
    | ConfigCredentials     // "no_config_credentials"
    | NetworkReset          // "no_network_reset"
    | ConfigBrightness      // "no_config_brightness"
    | ConfigMobileNetworks  // "no_config_mobile_networks"
    | DebuggingFeatures     // "no_debugging_features"
    | InstallApps           // "no_install_apps"
    | UninstallApps         // "no_uninstall_apps"
    | SideGestures          // "no_side_gestures"
    | OtherRestriction(key: string)

  /** `DevicePolicyManager.LOCK_TASK_FEATURE_*` flags; the empty set is LOCK_TASK_FEATURE_NONE. */
  datatype LockTaskFeature = SystemInfo | Home | Notifications | Overview | GlobalActions | Keyguard

  /**
   * `installed` and `accessibilityServices` are what the package manager
   * reports (the latter as flattened component names, in query order); the
   * remaining fields are the policy state set by the device owner.
   * `permittedA11y == None` means every accessibility service is allowed.
   * `appRestrictions` maps a package to its restriction bundle of boolean keys.
   */
  datatype Device = Device(
    isOwner: bool,
    installed: set<string>,
    accessibilityServices: seq<string>,
    lockTaskPackages: set<string>,
    lockTaskFeatures: set<LockTaskFeature>,
    restrictions: set<Restriction>,
    hidden: set<string>,
    permittedA11y: Option<seq<string>>,
    appRestrictions: map<string, map<string, bool>>,
    globalSettings: map<string, string>,
    uninstallBlocked: set<string>,
    keyguardDisabled: bool)

  /** `Bundle.getBoolean(key, false)` on the restriction bundle of `pkg`. */
  function AppRestrictionFlag(d: Device, pkg: string, key: string): bool {
    pkg in d.appRestrictions && key in d.appRestrictions[pkg] && d.appRestrictions[pkg][key]
  }
}
