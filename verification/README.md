# RNTurbolinksModule navigation dispatch

A model of the Android bridge module of react-native-turbolinks: the object that the
scripting side calls to visit a route, to visit a tab bar, and to set the message handler,
the user agent and the navigation-bar flag. The module keeps four fields (`prevRoute`,
`messageHandler`, `userAgent`, `navigationBarHidden`). A visit goes through a fixed
sequence of decisions:

- it takes the web path or the native path, depending on whether the route has a URL;
- it resolves whether the launch is initial;
- on the web path, it compares hosts;
- it then launches in the app, hands the URL to an external application, or gives up on a
  malformed URL.

Three files:

- `effects.dfy` (module `Effects`): routes, intents with their flags and extras, and the
  side effects of one call as an ordered list of events: `ResetSession`
  (`TurbolinksSession.resetDefault`), `StartActivity(intent)` and `Finish` (finishing the
  calling activity). The list makes "reset before start, finish after start" expressible.
- `navigation.dfy` (module `Navigation`): the decisions as pure functions over a snapshot
  `Config` of the four fields. It also defines one call (`Step`), a sequence of calls
  (`Run`) and the lemmas that state what a visit guarantees.
- `bridge.dfy` (module `Bridge`): the class `RNTurbolinksModule` with the four fields as
  mutable fields. Its methods build intents step by step and are proved equal to the
  `Navigation` functions.

Environment inputs are parameters:

- `isTaskRoot` is what the current activity reports.
- `host: string -> Option<string>` stands for `new URL(s).getHost()`. `None` means that the
  constructor throws `MalformedURLException`. Every result holds for any such function.
- A null URL string is malformed too, because `java.net.URL` reports a null spec as
  `MalformedURLException`.

`TurbolinksRoute` is not part of this model. `Route` keeps only the URL, the action and the
component name. The value of `ACTION_REPLACE` is taken as `"replace"`, the entry of the
exported Action table.

## Model

| member | source | states |
|---|---|---|
| Navigation.IsInitial | android/src/main/java/com/reactlibrary/RNTurbolinksModule.java:178-179 | reference definition of whether a launch is a new root: it is one only if the caller said initial or the caller is the task root, always when both hold, and exactly as the caller said for an action other than replace; `NewRootExactlyWhenInitial` relates it to the effects |
| Navigation.ComparisonUrl | android/src/main/java/com/reactlibrary/RNTurbolinksModule.java:180 | reference definition of the URL the route is compared with: the route's own URL or the previous route's URL, always the route's own when the caller said initial; `HostComparison` and `ComparisonIgnoresDerivedInitial` describe its use |
| Navigation.DecideWeb | android/src/main/java/com/reactlibrary/RNTurbolinksModule.java:180-182 | reference definition of the host decision: it is never same-host or other-host unless the route's URL parses, and a parseable URL compared with itself is always same-host; `HostComparison` and `MalformedUrlAborts` state the rest |
| Navigation.Launch | android/src/main/java/com/reactlibrary/RNTurbolinksModule.java:188-194 | an in-app launch starts exactly one intent for the target; its flags are all four new-task flags when initial and none otherwise; the session is reset once when initial and never otherwise, and that reset comes first; the caller is finished once, last, exactly for a replace; nothing else happens |
| Navigation.WebVisit | android/src/main/java/com/reactlibrary/RNTurbolinksModule.java:175-203 | reference definition of the web path: it changes no field except possibly prevRoute, to the visited route, and starts at most one intent; `WebPath`, `WebLaunchExtras`, `HostComparison`, `MalformedUrlAborts` and `OtherHostOpensExternally` describe it |
| Navigation.NativeVisit | android/src/main/java/com/reactlibrary/RNTurbolinksModule.java:205-219 | reference definition of the native path: it changes no field and starts exactly one in-app intent; `NativePath` describes it |
| Navigation.Visit | android/src/main/java/com/reactlibrary/RNTurbolinksModule.java:55-63 | reference definition of a visit: it changes no field except possibly prevRoute, to the visited route; it starts at most one intent, and exactly one for a route without a URL; `NativePath`, `WebPath` and `VisitMovesPrevRoute` describe it |
| Navigation.VisitTabBar | android/src/main/java/com/reactlibrary/RNTurbolinksModule.java:90-105 | a tab-bar visit always starts the tabbed activity with the four new-task flags, after exactly one session reset; it carries the handler, user agent, nav-bar flag, selected index and route list; it finishes nothing and changes no field, prevRoute included |
| Navigation.WebPath | android/src/main/java/com/reactlibrary/RNTurbolinksModule.java:58-62 | a route with a URL can only start the web activity or an external view of that URL, never the native activity |
| Navigation.WebLaunchExtras | android/src/main/java/com/reactlibrary/RNTurbolinksModule.java:184-187 | an in-app web launch carries exactly four extras: the message handler, the user agent and the navigation-bar flag as the module holds them, and the route |
| Navigation.NativePath | android/src/main/java/com/reactlibrary/RNTurbolinksModule.java:205-219 | a route without a URL starts exactly the native activity; its only extras are the nav-bar flag and the route; no state changes; the effects do not depend on prevRoute or on the URL parser |
| Navigation.NewRootExactlyWhenInitial | android/src/main/java/com/reactlibrary/RNTurbolinksModule.java:178-192 | on every in-app launch, web or native, the new-task flags are set and the session is reset once, before the start, exactly when the launch is initial; for a replace that means the caller is the task root, otherwise it means the caller's `initial` flag |
| Navigation.FinishExactlyOnInAppReplace | android/src/main/java/com/reactlibrary/RNTurbolinksModule.java:193-194 | the calling activity is finished, once and after the start, exactly when the action is replace and the launch stayed in the app |
| Navigation.HostComparison | android/src/main/java/com/reactlibrary/RNTurbolinksModule.java:180-182 | when the caller says initial or there is no previous route, a parseable URL is compared with itself and stays in the app; otherwise it stays in the app exactly when its host equals the previous route's host |
| Navigation.ComparisonIgnoresDerivedInitial | android/src/main/java/com/reactlibrary/RNTurbolinksModule.java:179-180 | the comparison URL follows the caller's flag, not the derived one: a replace from the task root with `initial` false would be a new-root launch, yet it is compared with a previous route on another host and opens externally |
| Navigation.MalformedUrlAborts | android/src/main/java/com/reactlibrary/RNTurbolinksModule.java:176-202 | if the route's URL or the comparison URL is malformed, the visit has no effect and keeps the state |
| Navigation.OtherHostOpensExternally | android/src/main/java/com/reactlibrary/RNTurbolinksModule.java:196-199 | when the hosts differ, the visit does exactly one ACTION_VIEW start of the route's URL; there are no flags, no reset and no finish, even for a replace, and the state is kept |
| Navigation.ReplaceFromTaskRoot | android/src/main/java/com/reactlibrary/RNTurbolinksModule.java:175-195 | a first replace from the task root gives: reset, then start of the web activity with new-task flags, then finish; prevRoute becomes the route |
| Navigation.InitialAdvance | android/src/main/java/com/reactlibrary/RNTurbolinksModule.java:178-194 | an explicitly initial advance starts the web activity with new-task flags after one reset and finishes nothing; prevRoute becomes the route |
| Navigation.SuccessiveVisits | android/src/main/java/com/reactlibrary/RNTurbolinksModule.java:180-195 | after a visit that stayed in the app, a non-initial second visit starts an intent, and stays in the app exactly when it has the same host |
| Navigation.VisitMovesPrevRoute | android/src/main/java/com/reactlibrary/RNTurbolinksModule.java:195 | a visit changes no configuration field; it changes prevRoute only when it starts the web activity, and then to the launched route; a web visit that starts an in-app activity always sets prevRoute to the route; so a remembered URL always parses |
| Navigation.Step | android/src/main/java/com/reactlibrary/RNTurbolinksModule.java:75-88 | each setter overwrites its own field and no other and has no effect; prevRoute changes only on a web visit that started the web activity, and every such visit sets it to that route; every remembered URL keeps parsing; the style setters do nothing |
| Navigation.StyleSettersChangeNothing | android/src/main/java/com/reactlibrary/RNTurbolinksModule.java:135-145 | the navigation-bar, loading and tab-bar style setters leave the state unchanged and have no effect |
| Navigation.Run | android/src/main/java/com/reactlibrary/RNTurbolinksModule.java:195 | over any sequence of calls from a state where a present prevRoute has a URL that parses (the initial state has none), that still holds |
| Navigation.RunLastWriteWins | android/src/main/java/com/reactlibrary/RNTurbolinksModule.java:75-88 | after any sequence of calls, each configuration field holds the value its setter last received, or its earlier value if that setter was never called |
| Bridge.RNTurbolinksModule.constructor | android/src/main/java/com/reactlibrary/RNTurbolinksModule.java:41-48 | a new module has no previous route, no handler and no user agent, and its navigation bar is shown |
| Bridge.RNTurbolinksModule.Visit | android/src/main/java/com/reactlibrary/RNTurbolinksModule.java:55-63 | the new fields and the effects are those of `Navigation.Visit` on the old fields |
| Bridge.RNTurbolinksModule.SetMessageHandler | android/src/main/java/com/reactlibrary/RNTurbolinksModule.java:75-78 | overwrites the message handler and nothing else |
| Bridge.RNTurbolinksModule.SetUserAgent | android/src/main/java/com/reactlibrary/RNTurbolinksModule.java:80-83 | overwrites the user agent and nothing else |
| Bridge.RNTurbolinksModule.SetNavigationBarHidden | android/src/main/java/com/reactlibrary/RNTurbolinksModule.java:85-88 | overwrites the navigation-bar flag and nothing else |
| Bridge.RNTurbolinksModule.VisitTabBar | android/src/main/java/com/reactlibrary/RNTurbolinksModule.java:90-105 | builds the tab-bar intent step by step; the effects are those of `Navigation.VisitTabBar`; no field changes |
| Bridge.RNTurbolinksModule.SetNavigationBarStyle | android/src/main/java/com/reactlibrary/RNTurbolinksModule.java:135-137 | ignores its style and leaves every field as it was |
| Bridge.RNTurbolinksModule.SetLoadingStyle | android/src/main/java/com/reactlibrary/RNTurbolinksModule.java:139-141 | ignores its style and leaves every field as it was |
| Bridge.RNTurbolinksModule.SetTabBarStyle | android/src/main/java/com/reactlibrary/RNTurbolinksModule.java:143-145 | ignores its style and leaves every field as it was |
| Bridge.RNTurbolinksModule.PresentActivityForSession | android/src/main/java/com/reactlibrary/RNTurbolinksModule.java:175-203 | the web path, run on the fields; the new prevRoute and the effects are those of `Navigation.WebVisit` |
| Bridge.RNTurbolinksModule.PresentNativeView | android/src/main/java/com/reactlibrary/RNTurbolinksModule.java:205-219 | the native path; it changes no field, and its effects are those of `Navigation.NativeVisit` |
| Bridge.RNTurbolinksModule.LaunchInApp | android/src/main/java/com/reactlibrary/RNTurbolinksModule.java:212-218 | adding the flags, resetting, starting and finishing step by step gives exactly `Navigation.Launch` |

## Left out

- `replaceWith`, `reloadVisitable`, `reloadSession`, `renderTitle`, `renderActions`, `dismiss` and `back` forward to the current activity, which is outside this model. They make no decision of their own.
- `getConstants` is a static table with no behaviour.
- The error log on a malformed URL is not modelled. The visit is modelled as having no effect.
- Decoding a route from the bridge's untyped map is not modelled, because `TurbolinksRoute` is not part of this model. `Route` holds only the URL, the action and the component name. The tab-bar route list is carried as it was given.
- The style setters take a style map that they ignore. The model gives them no parameter.
- No activity, or a null action, makes the source throw a null-pointer exception. These cases are caller errors and are not modelled. `isTaskRoot` is an input.
- `Uri.parse` is not modelled. The external ACTION_VIEW intent carries the URL string.
- Which context starts an activity (the application context for the tab bar, the current activity elsewhere) is not recorded.
- Threading is not modelled. All calls are taken to run one after another on one thread.
