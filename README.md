# seewo operations dashboard — a Dafny model of its core

The dashboard shows the configuration of a Windows PC and an Android device
(three JSON documents) together with live performance figures. This project
models in Dafny the parts of it that have behaviour of their own:

- **The configuration service** (`ConfigService`, config_service.dfy). It has three
  lazily filled slots: the Windows, Android and Device documents. Each load
  asks the desktop host's bridge (`window.electronAPI.getConfigFile`) when
  the bridge is present, and otherwise fetches `/config/<name>.json` and
  checks `response.ok`. A document is served from its slot while the slot
  is truthy in the JavaScript sense. `clearCache` empties all three slots,
  and `reloadAll` clears them and then loads all three. The service is a
  class whose methods update its fields. A ghost log records every request
  sent to the bridge or over HTTP, so that "a cache hit sends nothing" can
  be stated.
- **The shared helpers** (`Utils`, utils.dfy):
  - the performance colour classes;
  - the exact guards of `formatBytes` and `formatPercentage`;
  - `generateId`, a loop over successive random draws;
  - the IP and MAC validators. Each IP pattern is stated as a predicate on
    the fields between its separators (`.` for IPv4, `:` for IPv6). The MAC
    pattern is read from left to right as five groups of two hex digits and a
    separator, then a final pair.
- **The theme hook** (`UseTheme`, use_theme.dfy). It holds the chosen theme
  and the shown theme, persists the choice in local storage under the key
  `theme`, and keeps exactly one `light`/`dark` class on the root element.
  The hook's state is a class. The browser's local storage, its
  colour-scheme media query and the root element's class list are fields of
  that class.
- **The theme switcher** (`ThemeToggle`, theme_toggle.dfy):
  - the cycle light → dark → system;
  - the icons and labels;
  - the check mark of the drop-down menu.
- **The configuration display** (`OpsConfigDisplay`, ops_config_display.dfy):
  - the connection status text;
  - the colour classes of the usage bars;
  - the storage size formatter;
  - the network adapter panel, with its fallback row.

JavaScript numbers appear as `Utils.JsNumber`. Finite values are exact
reals, and `NaN` and the two infinities are explicit, because every
comparison with `NaN` is false. The bridge and the web server are oracles:
a `ConfigService.Host` value holds the function each of them computes, and
the model assumes nothing about what they return.

The service has three named loaders, a whole-cache `clearCache` and
`reloadAll`; it has no per-key entry point and no single-slot clear. It
checks for `window.electronAPI` on every call, so the model passes the host
to every call.

## Model

| member | source | states |
|---|---|---|
| ConfigService.RequestFor | src/services/configService.ts:297-301 | a load sends `getConfigFile('<name>-config')` exactly when the bridge is present, and otherwise a GET of `/config/<name>-config.json` |
| ConfigService.RequestIdentifiesKind | src/services/configService.ts:298-301 | the three documents are requested under three different names or URLs, whichever transport is used |
| ConfigService.Fetch | src/services/configService.ts:295-311 | the `try` block succeeds exactly when the chosen transport delivers a document (the bridge resolves, or the response is ok and its body parses), and returns that document; a response that is not ok is rejected with "Failed to load <Label> config: <statusText>"; a bridge rejection, a network error and a body that does not parse are rethrown unchanged, each with its own reason |
| ConfigService.Truthy | src/services/configService.ts:291 | the cache test `if (this.windowsConfig)` fails exactly for `null`, `false`, `0` and `""`; every object or array passes it |
| ConfigService.Load | src/services/configService.ts:290-312 | a truthy slot is returned as is and sends no request; otherwise exactly one request is sent and the fetch outcome is returned; a success stores the document and a failure leaves the slot unchanged |
| ConfigService.SecondLoadIsServedFromCache | src/services/configService.ts:291-293 | once a load has produced a truthy document, the next load returns that same document and sends nothing, whatever the transport would now answer |
| ConfigService.FailedLoadIsRetried | src/services/configService.ts:308-311 | a rejected load is not cached: the next load sends the request again and returns the new outcome |
| ConfigService.FalsyDocumentIsRefetched | src/services/configService.ts:291 | a document that JavaScript deems false (`null`, `false`, `0`, `""`) is stored but never served from the slot: every later load fetches again |
| ConfigService.ConfigService.constructor | src/services/configService.ts:282-285 | a new service starts with all three slots `null` and no request sent |
| ConfigService.ConfigService.LoadWindowsConfig | src/services/configService.ts:290-312 | loadWindowsConfig returns, stores and sends exactly what `Load` of its old slot specifies, and touches no other slot |
| ConfigService.ConfigService.LoadAndroidConfig | src/services/configService.ts:317-339 | loadAndroidConfig returns, stores and sends exactly what `Load` of its old slot specifies, and touches no other slot |
| ConfigService.ConfigService.LoadDeviceConfig | src/services/configService.ts:344-366 | loadDeviceConfig returns, stores and sends exactly what `Load` of its old slot specifies, and touches no other slot |
| ConfigService.ConfigService.ClearCache | src/services/configService.ts:388-392 | all three slots become `null` |
| ConfigService.ConfigService.ReloadAll | src/services/configService.ts:397-404 | all three requests are sent; each slot ends holding its freshly fetched document or `null`; the call resolves exactly when all three loads succeed, and otherwise is rejected with the error of one of the failed loads |
| ConfigService.LoadTwice | src/services/configService.ts:317-339 | on a fresh service a truthy document obtained once is returned again even when the transport later fails, and a failed first load is followed by a new fetch |
| ConfigService.LoadClearLoad | src/services/configService.ts:388-392 | after clearCache the next load fetches anew and returns the new outcome |
| Utils.BandOf | src/lib/utils.ts:50-54 | usage below 50 is green, from 50 below 80 is yellow, anything else red (NaN included), each as an if-and-only-if |
| Utils.BandMonotone | src/lib/utils.ts:50-54 | a higher usage never falls in a lower colour band |
| Utils.GetPerformanceColor | src/lib/utils.ts:50-54 | the text class is `text-<band>-500` for the band the usage falls in |
| Utils.GetPerformanceBackgroundColor | src/lib/utils.ts:61-65 | the background class is `bg-<band>-500` for the band the usage falls in |
| Utils.TextAndBackgroundAgree | src/lib/utils.ts:50-65 | the text and background classes of a usage name the same colour family and shade |
| Utils.FormatBytes | src/lib/utils.ts:20-30 | zero bytes gives the literal `0 Bytes`; otherwise a count of more than 100 decimals is the RangeError of `toFixed`, and any other count renders the value scaled, with that many decimals, or none when the count is negative |
| Utils.NegativeDecimalsActAsZero | src/lib/utils.ts:24 | a negative decimal count formats exactly like zero decimals |
| Utils.FormatPercentage | src/lib/utils.ts:39-43 | the literal branch `0%` is taken exactly when the total is zero; otherwise a decimal count outside 0..100 is the RangeError of `toFixed`, and any other count renders the ratio of value to total |
| Utils.ZeroTotalIgnoresValue | src/lib/utils.ts:40 | with a zero total the value and decimals do not matter |
| Utils.IdChar | src/lib/utils.ts:128-132 | every draw in [0, 1) picks a character of the 62-character alphabet |
| Utils.IdCharReachesEveryCharacter | src/lib/utils.ts:128-132 | every character of the alphabet is picked by some draw |
| Utils.GenerateId | src/lib/utils.ts:127-136 | the identifier has `length` characters (none for a length of at most 0), all from the alphabet, the i-th picked by the i-th draw |
| Utils.JoinSplit | src/lib/utils.ts:176-177 | joining the fields of a split gives back the string, so the field view of the patterns loses nothing |
| Utils.SplitJoin | src/lib/utils.ts:176-177 | splitting a join of separator-free fields gives back the fields |
| Utils.Ipv4Octet | src/lib/utils.ts:176 | each of the three alternatives of the octet group (`25[0-5]`, `2[0-4][0-9]`, `[01]?[0-9][0-9]?`) accepts one to three digits only, so an octet never holds a dot |
| Utils.Ipv4OctetMeaning | src/lib/utils.ts:176 | the octet pattern accepts exactly the strings of one to three digits whose value is at most 255, leading zeros included |
| Utils.IsIPv4 | src/lib/utils.ts:176 | the IPv4 pattern accepts four dot-separated octets; an accepted address is 7 to 15 characters long and holds a dot |
| Utils.IsIPv6 | src/lib/utils.ts:177 | the IPv6 pattern accepts eight colon-separated groups of one to four hex digits; an accepted address is 15 to 39 characters long, holds a colon and no dot |
| Utils.IsValidIP | src/lib/utils.ts:175-180 | an address passes when either pattern accepts it; an accepted address is 7 to 39 characters long, and it is IPv4 exactly when it holds a dot |
| Utils.LargeOctetRejected | src/lib/utils.ts:175-180 | an address with a field above 255 is not a valid IPv4 address |
| Utils.DoubleColonRejected | src/lib/utils.ts:177 | the `::` shorthand never passes the IPv6 pattern |
| Utils.DottedQuadAccepted | src/lib/utils.ts:175-180 | every dotted quad of four numbers 0..255 in decimal is a valid IP address |
| Utils.FourOctetsAccepted | src/lib/utils.ts:175-180 | four octets joined by dots are a valid IP address |
| Utils.MacGroupsShape | src/lib/utils.ts:188 | the repeated group `([hex]{2}[:-]){5}[hex]{2}` is the same as "every third character is `:` or `-`, every other one a hex digit" |
| Utils.IsValidMAC | src/lib/utils.ts:187-190 | a MAC address is valid exactly when every third character is `:` or `-` and the others are hex digits, over 17 characters |
| Utils.MixedSeparatorsAccepted | src/lib/utils.ts:188 | the separators need not agree: `00:1B-44:11-3A:B7` is accepted |
| UseTheme.ParseTheme | src/hooks/useTheme.ts:27 | a stored string is accepted only when it is the name of the theme it yields |
| UseTheme.ParseThemeName | src/hooks/useTheme.ts:27 | every theme's name is accepted as that theme, and nothing but the three names is accepted |
| UseTheme.InitialTheme | src/hooks/useTheme.ts:23-32 | the first theme is the stored one when the `theme` entry names a theme, and `system` otherwise (always `system` without a window) |
| UseTheme.GetSystemTheme | src/hooks/useTheme.ts:40-43 | without a window the system theme is dark; with one it is dark exactly when the dark colour scheme is preferred |
| UseTheme.ResolveTheme | src/hooks/useTheme.ts:49 | the shown theme is the chosen one unless it is `system`, in which case it is the system theme |
| UseTheme.RemoveClasses | src/hooks/useTheme.ts:55 | after `classList.remove` a class is present exactly when it was present and is not one of the removed tokens; a list without duplicates stays without |
| UseTheme.AddClass | src/hooks/useTheme.ts:56 | after `classList.add` the token is present, the old classes keep their places, at most one class is added, and a list without duplicates stays without |
| UseTheme.ApplyThemeClass | src/hooks/useTheme.ts:53-57 | after the update the root holds exactly one theme class, the shown theme's; its other classes are the old ones in their old order, and no class appears twice |
| UseTheme.ThemeHook.constructor | src/hooks/useTheme.ts:23-34 | a mounted hook starts with the initial theme and shows `dark` until its first update; the root class list, like every DOMTokenList, has no duplicates |
| UseTheme.ThemeHook.UpdateActualTheme | src/hooks/useTheme.ts:48-58 | the shown theme becomes the resolved theme, and with a document the root's theme classes are replaced by it, keeping the class list free of duplicates |
| UseTheme.ThemeHook.SetTheme | src/hooks/useTheme.ts:64-71 | the chosen theme becomes the new one, and with a window it is written to storage under `theme` |
| UseTheme.ThemeHook.SystemPreferenceChanged | src/hooks/useTheme.ts:79-95 | a change of the colour-scheme preference updates the shown theme and the root class only while the chosen theme is `system`; otherwise nothing but the preference changes |
| UseTheme.SavedThemeIsRestored | src/hooks/useTheme.ts:23-32 | a theme written by setTheme is the theme the next mount starts from |
| UseTheme.ChooseThenRemount | src/hooks/useTheme.ts:23-71 | choosing a theme and mounting the hook again restores that theme, shows it (or the system preference for `system`) and leaves exactly its class on the root |
| ThemeToggle.IndexOfTheme | src/components/ThemeToggle.tsx:105-106 | the index of a theme name in `['light', 'dark', 'system']`, and -1 exactly for a name that is not a theme |
| ThemeToggle.NextTheme | src/components/ThemeToggle.tsx:105-107 | the button never switches to the current theme, and a name that is not a theme (index -1) switches to `light` |
| ThemeToggle.NextThemeCycle | src/components/ThemeToggle.tsx:105-107 | the button steps light → dark → system → light |
| ThemeToggle.NextThemeIsAThreeCycle | src/components/ThemeToggle.tsx:105-107 | three presses of the button come back to the theme they started from |
| ThemeToggle.GetThemeIcon | src/components/ThemeToggle.tsx:29-40 | the sun exactly for `light`, the moon exactly for `dark`, the monitor otherwise |
| ThemeToggle.GetThemeLabel | src/components/ThemeToggle.tsx:47-58 | 明亮 for `light`, 暗黑 for `dark`, 跟随系统 for everything else |
| ThemeToggle.UnknownThemeShownAsSystem | src/components/ThemeToggle.tsx:37-38 | a name that is not a theme is shown with the icon and label of `system` |
| ThemeToggle.ThemesAreDistinguishable | src/components/ThemeToggle.tsx:29-58 | different themes have different labels and different icons |
| ThemeToggle.SelectionMarks | src/components/ThemeToggle.tsx:78-94 | the drop-down highlights and checks exactly the option of the current theme, and none for a name that is not a theme |
| OpsConfigDisplay.GetConnectionStatusTextAsWritten | src/components/OPSConfigDisplay.tsx:50-58 | as written, every status that is not an inherited object member gives a string |
| OpsConfigDisplay.InheritedNameIsNotText | src/components/OPSConfigDisplay.tsx:51-57 | as written, the status `toString` gives the inherited function, not a string |
| OpsConfigDisplay.GetConnectionStatusText | src/components/OPSConfigDisplay.tsx:50-58 | `connected`/`up` read 已连接, `disconnected`/`down` read 未连接, and every other status is shown unchanged |
| OpsConfigDisplay.AsWrittenAgreesOutsideInheritedNames | src/components/OPSConfigDisplay.tsx:50-58 | the code as written and the intended lookup agree on every status that is not an inherited member name |
| OpsConfigDisplay.GetPerformanceColor | src/components/OPSConfigDisplay.tsx:63-67 | the text class is `text-<band>-400` for the shared band of the usage |
| OpsConfigDisplay.GetPerformanceBgColor | src/components/OPSConfigDisplay.tsx:72-76 | the bar class is `bg-<band>-400` for the shared band of the usage |
| OpsConfigDisplay.BarColoursAgree | src/components/OPSConfigDisplay.tsx:63-76 | the figure and its bar share a colour family, and it is the family the shared helpers pick |
| OpsConfigDisplay.FormatStorageSize | src/components/OPSConfigDisplay.tsx:36-45 | text is passed through unchanged; a byte count is shown in terabytes exactly when it is at least 1024 GiB, and in gigabytes otherwise |
| OpsConfigDisplay.ShownAdapters | src/components/OPSConfigDisplay.tsx:298 | `slice(0, 2)` keeps the first two adapters (all of them when there are fewer), in order |
| OpsConfigDisplay.AdapterRowOf | src/components/OPSConfigDisplay.tsx:299-318 | a row shows the adapter's name, IPv4 and MAC, and is green and reads 已连接 exactly when its operstate is `up` |
| OpsConfigDisplay.FallbackRow | src/components/OPSConfigDisplay.tsx:319-345 | with no adapter (or an empty list) the row shows `Realtek PCIe GbE`, red and 未连接, `192.168.1.100` and `00:1B:44:11:3A:B7`; with one, it shows the first adapter's name, reads 已连接 exactly when it is `up`, and falls back to the built-in IP or MAC only when the adapter's is empty |
| OpsConfigDisplay.NetworkPanel | src/components/OPSConfigDisplay.tsx:298-348 | the adapters are listed exactly when the document has an adapter list, and the fallback row appears otherwise |
| OpsConfigDisplay.ListedAdapters | src/components/OPSConfigDisplay.tsx:298-318 | at most the first two adapters are listed, in order, each reading 已连接 exactly when its operstate is `up` |
| OpsConfigDisplay.FallbackShowsDefaults | src/components/OPSConfigDisplay.tsx:319-345 | the fallback always shows `Realtek PCIe GbE`, disconnected, `192.168.1.100` and `00:1B:44:11:3A:B7`; an empty adapter list shows no row at all, since an empty array is truthy |

## Left out

- `getRealtimePerformance` (src/services/configService.ts:371-383) is left out: it returns `Math.random()`-based mock figures and the clock.
- `console.error` logging in the loaders is left out: it is I/O with no effect on results.
- The three WindowsConfig, AndroidConfig and DeviceConfig schemas are not modelled field by field. A document is an abstract `Composite` JSON value, and only the adapter list of the Windows document is modelled, in `OpsConfigDisplay.Adapter`.
- ConfigService.ConfigService.ReloadAll: the three loads run one after the other, not interleaved under `Promise.all`. With several failures the source is rejected with whichever failure settles first in time; the model only promises the error of one failed load.
- ConfigService.ConfigService.ReloadAll: concurrent callers that interleave with a pending load (a second load issued before the first settles) are not modelled.
- Utils.FormatBytes: the floating-point rendering (`Math.log`, `toFixed`, `parseFloat`) and the unit name are left abstract. So are negative and non-finite inputs, for which the unit index is not an array index. Only the RangeError of `toFixed` is modelled.
- Utils.FormatBytes: `decimals` is an integer argument. The default of 2, which the callers rely on, is not modelled. Neither are fractional or infinite counts: `toFixed` truncates a fraction before its range check, so `formatBytes(1, 100.5)` renders with 100 digits, while an infinite count throws.
- Utils.FormatPercentage: the floating-point rendering with `toFixed` is left abstract; only its RangeError is modelled.
- Utils.FormatPercentage: `decimals` is an integer argument. The default of 1 is not modelled. Neither are fractional or infinite counts, which `toFixed` truncates before its range check or rejects outright.
- OpsConfigDisplay.FormatStorageSize: the `toFixed` rendering of terabytes and gigabytes is left abstract.
- `formatMemorySize` and `formatDiskSize` of the display component are left out: they are floating-point text formatting only.
- Utils.GenerateId: takes an integer length. A fractional length, which the source's `i < length` loop rounds up, is not modelled, and neither is the default of 8.
- `cn`, `delay`, `debounce`, `throttle` and `formatTimestamp` are left out: they are class-name merging, timers and locale formatting.
- UseTheme: React's scheduling is left out. That covers when the effects run, the re-registration of the media-query listener on every theme change, and state updates being asynchronous. The model exposes `UpdateActualTheme` and `SystemPreferenceChanged` as the methods the effects call.
- The JSX markup of the components is not modelled beyond the values it shows. Neither are the Electron main process and the API server.

## Findings

| source | as written | input that shows it | evidently intended | confidence | as-written member | corrected member |
|---|---|---|---|---|---|---|
| src/components/OPSConfigDisplay.tsx:50-58 | `statusMap` is a plain object literal, so `statusMap[status]` also finds the members every object inherits from Object.prototype | `getConnectionStatusText('toString')` (or `'constructor'`, `'__proto__'`) yields a function or an object, not a string | look up the four own entries only, and show any other status unchanged | low: not executed; the component itself only passes `'connected'` or `'disconnected'` | OpsConfigDisplay.GetConnectionStatusTextAsWritten (with OpsConfigDisplay.InheritedNameIsNotText) | OpsConfigDisplay.GetConnectionStatusText (with OpsConfigDisplay.AsWrittenAgreesOutsideInheritedNames) |
