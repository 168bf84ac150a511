# Kiosk whitelist, device policy and app list — a Dafny model

This project models the decision logic of an Android kiosk ("lock screen")
application and of its companion application manager. The Android platform
is replaced by plain data: the device is a record of its policy state, and
every platform answer (is the package installed, does this settings screen
open, what does this launch attempt observe) is an explicit input.

- **Kiosk whitelist** (`whitelist.dfy`, module `KioskWhitelist`). There is a
  fixed system set plus the application's own package, a custom set that can
  be changed, and a cached full whitelist equal to their union. The model
  covers add and remove, with their "changed" results, as well as the
  membership test, the installed subset handed to lock-task mode and the
  statistics counts. The system literal lists
  `com.android.providers.settings` twice; the model reads it as a set, so
  the duplicate collapses.
- **Device-policy transitions** (`device_policy.dfy`, `kiosk_utils.dfy`,
  modules `DevicePolicy` and `KioskUtils`). The transitions are:
  - enhanced kiosk setup, with its steps: user restrictions, the dock-bar
    block, the reset-settings block and the accessibility allow-list;
  - lock-task refresh;
  - disabling kiosk mode;
  - the temporary exit to a settings screen and re-entry;
  - whitelist edits that propagate to lock-task mode.

  The status predicates are "kiosk active", "reset blocked", "dock blocked"
  and "multi-window blocked". Substring tests are case-insensitive (module
  `TextMatch`). The allow-list filter and the multi-window status check use
  different keyword lists. The bare keyword `split` is checked but never
  filtered, so an accessibility service whose name contains `split` but no
  filter keyword survives setup. After that, the status check reports the
  feature as not blocked (`KioskUtils.SmartWindowFilterGap`).
- **Application list** (`app_management.dfy`, module `AppManagement`). This
  covers:
  - the "unfreeze all" and "freeze others" selections;
  - the sort order (whitelisted first, then system, then by name);
  - the radio filters;
  - the by-name and by-position updates after a freeze toggle;
  - the category label and how it agrees with the radio filters.
- **Install receiver** (`app_install.dfy`, module `AppInstall`). This covers:
  - dispatch on the package broadcast;
  - the exclusion of system applications;
  - the launch chain, which retries at most three times and steps its retry
    counter up by one each time.

`seq_filter.dfy` (Kotlin's order-preserving `filter` and `map`) and
`optional.dfy` (`Option`) are shared helpers.

Where the code differs from its own documentation, the model follows the
code:
- `isSystemApp` in the receiver answers false when the package lookup
  throws, even for a name in its fixed set;
- `disableKioskMode` leaves `no_side_gestures`, the hidden dock packages and
  the settings reset bundle in place;
- the Android version gates are all taken as on Android 10 (Q) or later.

## Model

| member | source | states |
|---|---|---|
| KioskWhitelist.SystemWhitelist | kiosk/src/main/java/com/haofenshu/lnkscreen/KioskWhitelistManager.kt:160-162 | the final system set holds the own package and every literal entry, and nothing else |
| KioskWhitelist.SystemLiteralDuplicateCollapses | kiosk/src/main/java/com/haofenshu/lnkscreen/KioskWhitelistManager.kt:25-150 | the literal has 124 entries, two of them `com.android.providers.settings`, so the system set has fewer members than the literal has entries |
| KioskWhitelist.Refresh | kiosk/src/main/java/com/haofenshu/lnkscreen/KioskWhitelistManager.kt:168-173 | rebuilding the cache yields a full whitelist equal to system set plus custom set |
| KioskWhitelist.Load | kiosk/src/main/java/com/haofenshu/lnkscreen/KioskWhitelistManager.kt:164-173 | after construction a package is whitelisted iff it is the own package, a literal entry or a persisted custom entry |
| KioskWhitelist.IsInWhitelist | kiosk/src/main/java/com/haofenshu/lnkscreen/KioskWhitelistManager.kt:226 | in a consistent state, membership holds iff the package is the own package, a literal entry or a custom entry |
| KioskWhitelist.SystemAlwaysWhitelisted | kiosk/src/main/java/com/haofenshu/lnkscreen/KioskWhitelistManager.kt:160-226 | the own package and every system entry are whitelisted in every consistent state |
| KioskWhitelist.AddAll | kiosk/src/main/java/com/haofenshu/lnkscreen/KioskWhitelistManager.kt:182-201 | reports a change iff some request was not whitelisted; otherwise (including an empty request) nothing changes; the custom set grows by exactly the requests not yet whitelisted; all requests are whitelisted afterwards; no system entry enters the custom set, so disjointness is kept |
| KioskWhitelist.Add | kiosk/src/main/java/com/haofenshu/lnkscreen/KioskWhitelistManager.kt:177-180 | the single-package add changes the manager iff the package was not whitelisted, then adds exactly it to the custom set; otherwise the manager is unchanged; the package is whitelisted afterwards, the own package is kept and the state stays consistent |
| KioskWhitelist.RemoveAll | kiosk/src/main/java/com/haofenshu/lnkscreen/KioskWhitelistManager.kt:208-224 | reports a change iff some request was a custom entry; the custom set loses exactly the requests; system entries stay whitelisted; disjointness is kept |
| KioskWhitelist.Remove | kiosk/src/main/java/com/haofenshu/lnkscreen/KioskWhitelistManager.kt:203-206 | the single-package remove reports a change iff the package was a custom entry and takes exactly it out of the custom set; when it reports false the manager is unchanged; the own package is kept and the state stays consistent |
| KioskWhitelist.AddIdempotent | kiosk/src/main/java/com/haofenshu/lnkscreen/KioskWhitelistManager.kt:178-201 | a second add of the same package reports false and changes nothing |
| KioskWhitelist.AddRemoveRoundTrip | kiosk/src/main/java/com/haofenshu/lnkscreen/KioskWhitelistManager.kt:178-224 | adding a package that was not whitelisted and removing it again both report true and restore the manager |
| KioskWhitelist.KioskPackages | kiosk/src/main/java/com/haofenshu/lnkscreen/KioskWhitelistManager.kt:228-238 | exactly the whitelisted packages that are installed; the own package is among them whenever it is installed |
| KioskWhitelist.GetStats | kiosk/src/main/java/com/haofenshu/lnkscreen/KioskWhitelistManager.kt:240-247 | the system count is the size of the system set (own package included), the custom count the size of the custom set and the total the size of the full whitelist; in a consistent state neither part exceeds the total, and with the custom and system sets disjoint the total is their sum |
| TextMatch.Lower | kiosk/src/main/java/com/haofenshu/lnkscreen/KioskUtils.kt:798-799 | the case-folded name has the same length and folds each character on its own |
| TextMatch.NotContainsIgnoreCaseMissingChar | kiosk/src/main/java/com/haofenshu/lnkscreen/KioskUtils.kt:798-799 | a lower-case keyword holding a letter the name lacks in both cases does not occur in the name, ignoring case |
| TextMatch.StrLeqTotal | kiosk/src/main/java/com/haofenshu/lnkscreen/AppManagementActivity.kt:106 | any two names are comparable under the UTF-16 code-unit order of Kotlin's `compareTo` |
| TextMatch.StrLeqTransitive | kiosk/src/main/java/com/haofenshu/lnkscreen/AppManagementActivity.kt:106 | the string order is transitive |
| TextMatch.StrLeqAntisymmetric | kiosk/src/main/java/com/haofenshu/lnkscreen/AppManagementActivity.kt:106 | two names each ordered before the other are equal |
| TextMatch.Utf16Injective | kiosk/src/main/java/com/haofenshu/lnkscreen/AppManagementActivity.kt:106 | two strings with the same UTF-16 encoding are equal, so the code-unit order is antisymmetric on strings |
| TextMatch.SurrogatesSortBeforeHighBmp | kiosk/src/main/java/com/haofenshu/lnkscreen/AppManagementActivity.kt:106 | the order compares code units, not code points: U+1F600 sorts before U+FF21 though its code point is larger |
| KioskUtils.ResetRestrictionCount | kiosk/src/main/java/com/haofenshu/lnkscreen/KioskUtils.kt:1317-1326 | the count of set reset restrictions is at most 3, and at least 2 iff two of the three are in the restriction set |
| KioskUtils.FilterAccessibilityServices | kiosk/src/main/java/com/haofenshu/lnkscreen/KioskUtils.kt:774-820 | the allow-list keeps, in order, exactly the services that contain no filter keyword ignoring case |
| KioskUtils.BlockedServiceCount | kiosk/src/main/java/com/haofenshu/lnkscreen/KioskUtils.kt:794-819 | installed services minus permitted services equals the number of services that match a filter keyword |
| KioskUtils.BlockHonorDockBarFloat | kiosk/src/main/java/com/haofenshu/lnkscreen/KioskUtils.kt:1030-1132 | hides exactly the installed dock packages, adds the side-gesture restriction, writes "0" to both dock switches, and leaves every other global setting and every other field unchanged |
| KioskUtils.RestrictSmartWindowFeatures | kiosk/src/main/java/com/haofenshu/lnkscreen/KioskUtils.kt:760-832 | first the dock block: the installed dock packages are hidden, the side-gesture restriction is added and both dock switches read "0", with every other global setting kept; then the permitted accessibility list becomes the filtered list of the installed services; no other field changes |
| KioskUtils.BlockHonorResetSettings | kiosk/src/main/java/com/haofenshu/lnkscreen/KioskUtils.kt:1190-1302 | the settings package gets the reset bundle, the reset restrictions are added, every reset global key reads "0" and `device_provisioned` reads "1"; no other global setting changes, no key is dropped, and no other field of the device changes |
| KioskUtils.RestrictSpecificSettings | kiosk/src/main/java/com/haofenshu/lnkscreen/KioskUtils.kt:604-645 | adds the reset restrictions and the side-gesture restriction; gives the settings package the reset bundle and leaves every other package's bundle alone; hides the installed dock packages; writes "0" to the reset keys and both dock switches and "1" to `device_provisioned`, keeping every other global setting; installs the filtered accessibility list; no other field changes |
| KioskUtils.SetupEnhancedKioskMode | kiosk/src/main/java/com/haofenshu/lnkscreen/KioskUtils.kt:33-104 | without owner rights it reports false and changes nothing; with them it reports true, sets lock-task packages to the installed whitelist and the features to system-info and home, and adds exactly the listed restrictions; it also hides the installed dock packages, installs the filtered accessibility list and the reset bundle, disables the keyguard and unblocks the own package's uninstall, leaving every other package's uninstall block as it was |
| KioskUtils.RefreshLockTaskPackages | kiosk/src/main/java/com/haofenshu/lnkscreen/KioskUtils.kt:200-220 | reports owner rights; as owner only the lock-task packages change, to the installed whitelist |
| KioskUtils.DisableKioskMode | kiosk/src/main/java/com/haofenshu/lnkscreen/KioskUtils.kt:222-270 | as owner it empties lock-task packages and features, removes exactly the eight listed restrictions, resets the accessibility list to unrestricted and re-enables the keyguard, and changes no other field; without owner rights nothing changes; hidden packages and application restrictions never change |
| KioskUtils.OpenSettingsTarget | kiosk/src/main/java/com/haofenshu/lnkscreen/KioskUtils.kt:308-399 | the developer target succeeds iff the developer screen or the main screen opens; the applications target iff the applications screen or the main screen opens; the device-admin target iff its own screen opens, with no fallback; any other target iff the main screen opens |
| KioskUtils.OpenSettingsMonotone | kiosk/src/main/java/com/haofenshu/lnkscreen/KioskUtils.kt:308-434 | if every screen that opens under one platform answer also opens under another, a target (and the temporary exit) that succeeds under the first succeeds under the second |
| KioskUtils.TemporaryExitForSettings | kiosk/src/main/java/com/haofenshu/lnkscreen/KioskUtils.kt:404-434 | without owner rights nothing changes; as owner only the lock-task list changes, to empty, and the result is whether the screen opened |
| KioskUtils.ReenterKioskMode | kiosk/src/main/java/com/haofenshu/lnkscreen/KioskUtils.kt:439-455 | reports owner rights; without them the device is unchanged; as owner only the lock-task list changes, and it becomes the installed whitelist |
| KioskUtils.AddAppToWhitelist | kiosk/src/main/java/com/haofenshu/lnkscreen/KioskUtils.kt:106-122 | reports true iff the package was not whitelisted; the lock-task list is re-set, and then holds the package if installed, only when the whitelist changed and kiosk mode is active; otherwise the device is unchanged |
| KioskUtils.RemoveAppFromWhitelist | kiosk/src/main/java/com/haofenshu/lnkscreen/KioskUtils.kt:124-140 | reports true iff the package was a custom entry; the lock-task list is re-set only when it changed and kiosk mode is active, and then loses a non-system package; otherwise the device is unchanged |
| KioskUtils.SetupBlocksHonorReset | kiosk/src/main/java/com/haofenshu/lnkscreen/KioskUtils.kt:1307-1359 | after an owner setup the restrictions include factory reset, safe boot, add user and network reset, and the reset check reports blocked |
| KioskUtils.SetupActivatesKiosk | kiosk/src/main/java/com/haofenshu/lnkscreen/KioskUtils.kt:182-198 | after an owner setup with the own package installed, kiosk mode is active |
| KioskUtils.SetupBlocksDockBar | kiosk/src/main/java/com/haofenshu/lnkscreen/KioskUtils.kt:1137-1183 | after an owner setup the dock check reports blocked |
| KioskUtils.DockBarBlockedByAbsence | kiosk/src/main/java/com/haofenshu/lnkscreen/KioskUtils.kt:1137-1183 | for an owner, a missing dock package alone makes the dock check report blocked |
| KioskUtils.ExitsDeactivateKiosk | kiosk/src/main/java/com/haofenshu/lnkscreen/KioskUtils.kt:182-198 | after disabling or a temporary exit, kiosk mode is inactive |
| KioskUtils.ExitReenterRoundTrip | kiosk/src/main/java/com/haofenshu/lnkscreen/KioskUtils.kt:404-455 | exit followed by re-entry restores an owner device whose lock-task list was the installed whitelist |
| KioskUtils.DisableLeavesBlocks | kiosk/src/main/java/com/haofenshu/lnkscreen/KioskUtils.kt:222-270 | after setup then disable, kiosk mode is off and the multi-window check reports not blocked, but reset and dock still report blocked and the side-gesture restriction stays |
| KioskUtils.DisableKeepsBlocks | kiosk/src/main/java/com/haofenshu/lnkscreen/KioskUtils.kt:241-257 | disabling keeps the side-gesture restriction, the dock block and the reset bundle of any owner device that has them |
| KioskUtils.CheckPatternsFiltered | kiosk/src/main/java/com/haofenshu/lnkscreen/KioskUtils.kt:856-859 | every check keyword except `split` is also a filter keyword |
| KioskUtils.CheckOnFilteredList | kiosk/src/main/java/com/haofenshu/lnkscreen/KioskUtils.kt:837-874 | on a filtered list, no service matches a check keyword iff none contains `split` |
| KioskUtils.SmartWindowAfterSetup | kiosk/src/main/java/com/haofenshu/lnkscreen/KioskUtils.kt:837-874 | after an owner setup the multi-window check reports blocked iff no permitted service contains `split` |
| KioskUtils.GapServicePassesFilter | kiosk/src/main/java/com/haofenshu/lnkscreen/KioskUtils.kt:774-793 | a service named `a.split/.Split` matches no filter keyword but contains `split` |
| KioskUtils.SmartWindowFilterGap | kiosk/src/main/java/com/haofenshu/lnkscreen/KioskUtils.kt:760-874 | with that service installed, setup keeps it permitted and the multi-window check reports not blocked |
| AppManagement.UnfreezeSelection | kiosk/src/main/java/com/haofenshu/lnkscreen/AppManagementActivity.kt:64 | exactly the package names of the hidden rows, in list order, one entry per hidden row (so a name appears as often as it has hidden rows) |
| AppManagement.FreezeSelection | kiosk/src/main/java/com/haofenshu/lnkscreen/AppManagementActivity.kt:72-73 | exactly the package names of the rows that are not whitelisted, not hidden and not the own package, in list order and one entry per such row; never the own package |
| AppManagement.SelectionsDisjoint | kiosk/src/main/java/com/haofenshu/lnkscreen/AppManagementActivity.kt:63-73 | with unique package names, the freeze selection names no whitelisted or hidden row and shares no package with the unfreeze selection |
| AppManagement.SelectionsOverlapWithDuplicateNames | kiosk/src/main/java/com/haofenshu/lnkscreen/AppManagementActivity.kt:63-73 | two rows with one package name, one hidden and one not, put that name in both selections |
| AppManagement.KeyLeqTotal | kiosk/src/main/java/com/haofenshu/lnkscreen/AppManagementActivity.kt:106 | the sort key orders any two rows |
| AppManagement.KeyLeqTransitive | kiosk/src/main/java/com/haofenshu/lnkscreen/AppManagementActivity.kt:106 | the sort key is transitive |
| AppManagement.Insert | kiosk/src/main/java/com/haofenshu/lnkscreen/AppManagementActivity.kt:106 | inserting into a sorted list keeps it sorted and adds exactly the one row |
| AppManagement.SortApps | kiosk/src/main/java/com/haofenshu/lnkscreen/AppManagementActivity.kt:106 | a permutation of the rows in which whitelisted rows come first, then system rows within equal whitelist status, then names in order |
| AppManagement.LoadApps | kiosk/src/main/java/com/haofenshu/lnkscreen/AppManagementActivity.kt:82-106 | one row per installed application, with flags read from the whitelist, hidden set and administrators, and label, name and system flag taken from that application, sorted |
| AppManagement.ApplyFilter | kiosk/src/main/java/com/haofenshu/lnkscreen/AppManagementActivity.kt:111-118 | the order-preserving sub-list of exactly the rows the filter selects, each row kept as many times as it occurs, so its length is the number of selected rows; the default filter returns the list unchanged |
| AppManagement.SystemUserPartition | kiosk/src/main/java/com/haofenshu/lnkscreen/AppManagementActivity.kt:114-115 | the system and user filters split the list: their lengths add up and together they are a permutation of it |
| AppManagement.SyncHidden | kiosk/src/main/java/com/haofenshu/lnkscreen/AppManagementActivity.kt:123 | same length; rows of the toggled package take the new hidden state; every other field and every other row is unchanged |
| AppManagement.SetHiddenAt | kiosk/src/main/java/com/haofenshu/lnkscreen/AppManagementActivity.kt:180-182 | only the row at the position changes, and only in its hidden flag |
| AppManagement.PositionalUpdateAgrees | kiosk/src/main/java/com/haofenshu/lnkscreen/AppManagementActivity.kt:120-182 | with unique package names the displayed-list update and the full-list update agree |
| AppManagement.DisplayedToggleAgrees | kiosk/src/main/java/com/haofenshu/lnkscreen/AppManagementActivity.kt:120-182 | with unique package names, toggling the row at a position of the filtered list gives the same list as toggling that package by name in the full list and filtering again |
| AppManagement.FilterKeepsUnique | kiosk/src/main/java/com/haofenshu/lnkscreen/AppManagementActivity.kt:111-118 | filtering a list with unique package names keeps them unique |
| AppManagement.ToggleRoundTrip | kiosk/src/main/java/com/haofenshu/lnkscreen/AppManagementActivity.kt:123 | toggling a package away from and back to its state restores the list |
| AppManagement.ToggleThenUnfreeze | kiosk/src/main/java/com/haofenshu/lnkscreen/AppManagementActivity.kt:64-123 | after a toggle the package is in the unfreeze selection iff it was toggled to hidden |
| AppManagement.CategoryOf | kiosk/src/main/java/com/haofenshu/lnkscreen/AppManagementActivity.kt:158-163 | administrator beats whitelisted beats system beats normal: each label holds exactly when its flag is set and no higher one is |
| AppManagement.CategoryMatchesFilters | kiosk/src/main/java/com/haofenshu/lnkscreen/AppManagementActivity.kt:111-163 | a row is labelled administrator iff the administrator filter selects it; a whitelisted label implies the whitelist filter, a system label the system filter and a normal label the user filter; the user filter never shows a system label and the whitelist filter shows only administrator or whitelisted labels |
| AppInstall.LaunchWithRetry | appmanager/src/main/java/com/yunxiao/appmanager/receiver/AppInstallReceiver.kt:99-142 | the chain from counter c has at most 4 - c attempts; every step but the last is a retry with counter below 3, waiting 1000 ms exactly when that attempt found the app disabled and 1500 ms exactly when it found it missing; the last step launches iff that attempt finds the app enabled with a launch intent, stops without launching iff it finds it enabled without one, aborts iff the lookup throws, and gives up iff it finds it disabled or missing, which only happens at counter 3 |
| AppInstall.AtMostOneLaunch | appmanager/src/main/java/com/yunxiao/appmanager/receiver/AppInstallReceiver.kt:119-129 | a chain launches at most once |
| AppInstall.LaunchIffReference | appmanager/src/main/java/com/yunxiao/appmanager/receiver/AppInstallReceiver.kt:99-142 | a chain launches iff some attempt no later than counter 3 finds the app launchable and every earlier attempt found it disabled or missing |
| AppInstall.HandleInstalled | appmanager/src/main/java/com/yunxiao/appmanager/receiver/AppInstallReceiver.kt:66-77 | a system application is skipped; any other starts the chain at counter 0 |
| AppInstall.OnReceive | appmanager/src/main/java/com/yunxiao/appmanager/receiver/AppInstallReceiver.kt:24-54 | a launch chain only follows a fresh, named install, and it is the retry chain from counter 0; updates with a name and non-replacing removals with a name are noted; nameless broadcasts are ignored |
| AppInstall.LaunchChainIff | appmanager/src/main/java/com/yunxiao/appmanager/receiver/AppInstallReceiver.kt:26-33 | a broadcast starts a chain iff it is a non-replacing add of a named non-system package |
| AppInstall.NoLaunchWithoutFreshInstall | appmanager/src/main/java/com/yunxiao/appmanager/receiver/AppInstallReceiver.kt:24-94 | replacing adds, nameless broadcasts, updates and removals never launch |
| AppInstall.SystemAppsNeverLaunched | appmanager/src/main/java/com/yunxiao/appmanager/receiver/AppInstallReceiver.kt:147-168 | a package whose lookup shows FLAG_SYSTEM, or a fixed name whose lookup succeeds, is never launched |
| AppInstall.FailedLookupIsNotSystem | appmanager/src/main/java/com/yunxiao/appmanager/receiver/AppInstallReceiver.kt:147-168 | `android` is a fixed name, yet it is not a system application when its lookup fails |
| AppInstall.SystemPackagesCount | appmanager/src/main/java/com/yunxiao/appmanager/receiver/AppInstallReceiver.kt:153-162 | the eight listed names form a set of seven |

## Left out

- Android platform calls (DevicePolicyManager, PackageManager, Settings, startActivity) are not modelled as behaviour. Their effects are fields of the device record, and their answers are inputs.
- Exceptions inside the kiosk's `try` blocks are not modelled: each policy call is taken to succeed.
- The millisecond delays of the receiver's `Handler` posts are not modelled; only the retry delay of each step is recorded.
- SharedPreferences persistence and the synchronised singleton of the whitelist manager are not modelled. The persisted custom set is an input to `KioskWhitelist.Load`.
- Android version gates are not modelled; every gated branch is taken as on Android 10 or later.
- The `permittedPackages` list (KioskUtils.kt:626-635) and the input-method list (KioskUtils.kt:1108-1119) are computed but never applied, so the model omits them.
- The intent-filter listing in the reset block (KioskUtils.kt:1263-1274) only logs, so it is omitted.
- Network-status strings, shutdown and reboot fallbacks, and the status text of `getKioskStatus` are left out. They produce text or platform side effects only.
- `setAppsHidden`, `setAppHidden`, `getInstalledApps`, `isSystemApp(appInfo)`, `isAppHidden` and `KioskLaunchManager` are not part of this model. Their answers enter as inputs, such as the hidden set and the `isSystem` flag of an installed application.
- The view, adapter and icon code of the application-management screen is not modelled, and neither are the other activities, services and receivers.
- TextMatch.Lower: folds ASCII letters only, and `TextMatch.ContainsIgnoreCase` compares through it. Kotlin's `ignoreCase` compares characters after upper-casing and lower-casing them, which also matches some non-ASCII characters to ASCII keyword letters: `ſ` (U+017F) matches `s`, `ı` (U+0131) matches `i` and the Kelvin sign (U+212A) matches `k`. A service named `a.b/.ſidebar` is therefore dropped by the allow-list filter but kept by the model, and the status checks differ in the same way for such names. Names of this kind are assumed not to occur.
- AppManagement.SortApps: proves sortedness and permutation but not the stability of Kotlin's `sortedWith`. Rows with equal keys may be in any order in the model.
- AppManagement.LoadApps: inherits the same gap from `AppManagement.SortApps`. Its rows are sorted and a permutation of the built rows, but rows with equal keys (same whitelist and system flags and the same name) are not promised to keep the order of the installed-application list.
- AppManagement.SelectionsDisjoint: requires unique package names. `AppManagement.SelectionsOverlapWithDuplicateNames` shows the selections can overlap without that assumption.
- KioskUtils.SetupEnhancedKioskMode: its contract does not state the global settings it writes (`stay_on_while_plugged_in`, the dock switches, the reset keys). No modelled predicate reads them; `KioskUtils.BlockHonorResetSettings` states the reset keys.
- The category colours (AppManagementActivity.kt:166-171) are rendering only and are not modelled; the label itself is `AppManagement.CategoryOf`.
- `isAppLaunchable` (AppInstallReceiver.kt:174-181) is never called by the receiver, so it is not modelled; the launch chain probes the package itself.
