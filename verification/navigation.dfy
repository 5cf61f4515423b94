/** The navigation-dispatch decisions of the bridge as pure functions over a
    snapshot of the module's state, and what they guarantee. Bridge's class runs
    the same decisions step by step on its fields. */
module Navigation {
  import opened Effects

  /** The four fields of the bridge module. */
  datatype Config = Config(
    prevRoute: Option<Route>,
    messageHandler: Option<string>,
    userAgent: Option<string>,
    navigationBarHidden: bool)

  /** A freshly created module: no previous route, no handler, no user agent,
      navigation bar shown. */
  const Initial: Config := Config(None, None, None, false)

  /** The state after a call and the side effects the call performed, in order. */
  datatype Outcome = Outcome(next: Config, events: seq<Event>)

  /** The host of a URL string as java.net.URL reports it, or None where the
      constructor throws MalformedURLException. The parser itself is not part of
      this model: every result below holds for any such function. */
  type HostOf = string -> Option<string>

  /** Parses a possibly-null URL string; a null string is malformed too
      (java.net.URL reports it as MalformedURLException). */
  function HostOfUrl(host: HostOf, url: Option<string>): Option<string> {
    match url
    case None => None
    case Some(u) => host(u)
  }

  predicate IsReplace(route: Route) {
    route.action == ActionReplace
  }

  /** Whether the launch starts a new root: for a replace, whether the calling
      activity is the root of its task; otherwise what the caller said. */
  function IsInitial(route: Route, initial: bool, isTaskRoot: bool): (r: bool)
    ensures r ==> initial || isTaskRoot
    ensures initial && isTaskRoot ==> r
    ensures !IsReplace(route) ==> r == initial
  {
    if IsReplace(route) then isTaskRoot else initial
  }

  /** The URL whose host the route's host is compared with. It is chosen with the
      caller's own `initial` flag, not with IsInitial. */
  function ComparisonUrl(route: Route, initial: bool, prevRoute: Option<Route>): (u: Option<string>)
    ensures u == route.url || (prevRoute.Some? && u == prevRoute.value.url)
    ensures initial ==> u == route.url
  {
    if initial || prevRoute.None? then route.url else prevRoute.value.url
  }

  /** The three ways a web visit can go. */
  datatype WebDecision = Malformed | SameHost | OtherHost

  /** A URL that parses, compared with itself, is always on the same host. */
  function DecideWeb(route: Route, initial: bool, prevRoute: Option<Route>, host: HostOf): (d: WebDecision)
    ensures d != Malformed ==> route.url.Some? && host(route.url.value).Some?
    ensures route.url.Some? && host(route.url.value).Some? && (initial || prevRoute.None?) ==> d == SameHost
  {
    var prevHost := HostOfUrl(host, ComparisonUrl(route, initial, prevRoute));
    var nextHost := HostOfUrl(host, route.url);
    if prevHost.None? || nextHost.None? then Malformed
    else if prevHost.value == nextHost.value then SameHost
    else OtherHost
  }

  /** The flags an in-app launch carries. */
  function LaunchFlags(isInitial: bool): set<Flag> {
    if isInitial then NewRootFlags else {}
  }

  /** The side effects of an in-app launch: a session reset for a new root, the
      start itself, and a finish of the caller for a replace. */
  function Launch(target: Target, extras: map<string, Extra>, isInitial: bool, replace: bool): (r: seq<Event>)
    ensures Started(r) == [ForActivity(target, if isInitial then NewRootFlags else {}, extras)]
    ensures Resets(r) == (if isInitial then 1 else 0)
    ensures Finishes(r) == (if replace then 1 else 0)
    ensures |r| == 1 + Resets(r) + Finishes(r)
    ensures isInitial ==> r[0] == ResetSession
    ensures replace ==> r[|r| - 1] == Finish
  {
    var reset := if isInitial then [ResetSession] else [];
    var start := [StartActivity(ForActivity(target, LaunchFlags(isInitial), extras))];
    var finish := if replace then [Finish] else [];
    StartedAppend(reset, start);
    StartedAppend(reset + start, finish);
    assert multiset(reset + start + finish) == multiset(reset) + multiset(start) + multiset(finish);
    reset + start + finish
  }

  /** Extras of a web launch: the session configuration and the route. */
  function WebExtras(c: Config, route: Route): map<string, Extra> {
    map[IntentMessageHandler := StringExtra(c.messageHandler),
        IntentUserAgent := StringExtra(c.userAgent),
        IntentNavigationBarHidden := BoolExtra(c.navigationBarHidden),
        IntentRoute := RouteExtra(route)]
  }

  /** Extras of a native launch: the navigation-bar flag and the route only. */
  function NativeExtras(navigationBarHidden: bool, route: Route): map<string, Extra> {
    map[IntentNavigationBarHidden := BoolExtra(navigationBarHidden),
        IntentRoute := RouteExtra(route)]
  }

  /** Extras of a tab-bar launch. */
  function TabBarExtras(c: Config, routes: seq<Route>, selectedIndex: int): map<string, Extra> {
    map[IntentMessageHandler := StringExtra(c.messageHandler),
        IntentUserAgent := StringExtra(c.userAgent),
        IntentNavigationBarHidden := BoolExtra(c.navigationBarHidden),
        IntentSelectedIndex := IntExtra(selectedIndex),
        IntentRoutes := RouteListExtra(routes)]
  }

  /** presentActivityForSession. */
  function WebVisit(c: Config, route: Route, initial: bool, isTaskRoot: bool, host: HostOf): (o: Outcome)
    ensures o.next == c || o.next == c.(prevRoute := Some(route))
    ensures |Started(o.events)| <= 1
  {
    match DecideWeb(route, initial, c.prevRoute, host)
    case Malformed => Outcome(c, [])
    case OtherHost => Outcome(c, [StartActivity(ActionView(route.url.value))])
    case SameHost =>
      Outcome(c.(prevRoute := Some(route)),
              Launch(WebActivity, WebExtras(c, route), IsInitial(route, initial, isTaskRoot), IsReplace(route)))
  }

  /** presentNativeView: never parses a URL and never reads prevRoute. */
  function NativeVisit(c: Config, route: Route, initial: bool, isTaskRoot: bool): (o: Outcome)
    ensures o.next == c
    ensures |Started(o.events)| == 1 && Started(o.events)[0].ForActivity?
  {
    Outcome(c, Launch(NativeActivity, NativeExtras(c.navigationBarHidden, route),
                      IsInitial(route, initial, isTaskRoot), IsReplace(route)))
  }

  /** visit: the web path for a route with a URL, the native path otherwise. */
  function Visit(c: Config, route: Route, initial: bool, isTaskRoot: bool, host: HostOf): (o: Outcome)
    ensures o.next == c || o.next == c.(prevRoute := Some(route))
    ensures |Started(o.events)| <= 1
    ensures route.url.None? ==> |Started(o.events)| == 1
  {
    if route.url.Some? then WebVisit(c, route, initial, isTaskRoot, host)
    else NativeVisit(c, route, initial, isTaskRoot)
  }

  /** visitTabBar: always a new-root launch of the tabbed activity. */
  function VisitTabBar(c: Config, routes: seq<Route>, selectedIndex: int): (o: Outcome)
    ensures o.next == c
    ensures Started(o.events) == [ForActivity(TabbedActivity, NewRootFlags, TabBarExtras(c, routes, selectedIndex))]
    ensures Resets(o.events) == 1 && o.events[0] == ResetSession
    ensures Finishes(o.events) == 0
  {
    Outcome(c, Launch(TabbedActivity, TabBarExtras(c, routes, selectedIndex), true, false))
  }

  // ---------------------------------------------------------------------------
  // What a single visit guarantees

  /** A route without a URL takes the native path: it launches the native
      activity with the navigation-bar flag and the route as its only extras and
      changes no state, whatever the previous route and the URL parser are. */
  lemma NativePath(c: Config, route: Route, initial: bool, isTaskRoot: bool, host: HostOf,
                   otherPrev: Option<Route>, otherHost: HostOf)
    requires route.url.None?
    ensures var o := Visit(c, route, initial, isTaskRoot, host);
      o.next == c &&
      o.events == Visit(c.(prevRoute := otherPrev), route, initial, isTaskRoot, otherHost).events &&
      |Started(o.events)| == 1 &&
      Started(o.events)[0].ForActivity? &&
      Started(o.events)[0].target == NativeActivity &&
      Started(o.events)[0].extras.Keys == {IntentNavigationBarHidden, IntentRoute} &&
      Started(o.events)[0].extras[IntentNavigationBarHidden] == BoolExtra(c.navigationBarHidden) &&
      Started(o.events)[0].extras[IntentRoute] == RouteExtra(route)
  {
    var o := Visit(c, route, initial, isTaskRoot, host);
    var extras := NativeExtras(c.navigationBarHidden, route);
    var isInitial := IsInitial(route, initial, isTaskRoot);
    assert o == NativeVisit(c, route, initial, isTaskRoot);
    assert o.events == Launch(NativeActivity, extras, isInitial, IsReplace(route));
    assert Visit(c.(prevRoute := otherPrev), route, initial, isTaskRoot, otherHost).events == o.events;
    assert Started(o.events) == [ForActivity(NativeActivity, LaunchFlags(isInitial), extras)];
  }

  /** A route with a URL takes the web path: the only thing it can start is the
      web activity or an external view of that URL, never the native activity. */
  lemma WebPath(c: Config, route: Route, initial: bool, isTaskRoot: bool, host: HostOf)
    requires route.url.Some?
    ensures var o := Visit(c, route, initial, isTaskRoot, host);
      forall i <- Started(o.events) :: i == ActionView(route.url.value) || (i.ForActivity? && i.target == WebActivity)
  {
  }

  /** An in-app web launch carries the message handler, the user agent, the
      navigation-bar flag and the route, all as the module and the caller hold
      them, and nothing else. */
  lemma WebLaunchExtras(c: Config, route: Route, initial: bool, isTaskRoot: bool, host: HostOf)
    requires route.url.Some?
    ensures var o := Visit(c, route, initial, isTaskRoot, host);
      Started(o.events) != [] && Started(o.events)[0].ForActivity? ==>
        Started(o.events)[0].extras.Keys
          == {IntentMessageHandler, IntentUserAgent, IntentNavigationBarHidden, IntentRoute} &&
        Started(o.events)[0].extras[IntentMessageHandler] == StringExtra(c.messageHandler) &&
        Started(o.events)[0].extras[IntentUserAgent] == StringExtra(c.userAgent) &&
        Started(o.events)[0].extras[IntentNavigationBarHidden] == BoolExtra(c.navigationBarHidden) &&
        Started(o.events)[0].extras[IntentRoute] == RouteExtra(route)
  {
    var o := Visit(c, route, initial, isTaskRoot, host);
    match DecideWeb(route, initial, c.prevRoute, host)
    case SameHost =>
      var extras := WebExtras(c, route);
      var isInitial := IsInitial(route, initial, isTaskRoot);
      assert o.events == Launch(WebActivity, extras, isInitial, IsReplace(route));
      assert Started(o.events)[0] == ForActivity(WebActivity, LaunchFlags(isInitial), extras);
      assert extras.Keys == {IntentMessageHandler, IntentUserAgent, IntentNavigationBarHidden, IntentRoute};
    case OtherHost =>
      assert o.events == [StartActivity(ActionView(route.url.value))];
      assert Started(o.events) == [ActionView(route.url.value)];
    case Malformed =>
      assert o.events == [];
  }

  /** On every in-app launch, web or native, the four new-task flags are added
      together and the session is reset exactly once, before the start, exactly
      when the launch is initial: for a replace when the caller is the task
      root, otherwise when the caller said so. */
  lemma NewRootExactlyWhenInitial(c: Config, route: Route, initial: bool, isTaskRoot: bool, host: HostOf)
    requires Started(Visit(c, route, initial, isTaskRoot, host).events) != []
    requires Started(Visit(c, route, initial, isTaskRoot, host).events)[0].ForActivity?
    ensures var o := Visit(c, route, initial, isTaskRoot, host);
      var isInitial := if route.action == ActionReplace then isTaskRoot else initial;
      Started(o.events)[0].flags == (if isInitial then NewRootFlags else {}) &&
      Resets(o.events) == (if isInitial then 1 else 0) &&
      (isInitial ==> o.events[0] == ResetSession)
  {
    var o := Visit(c, route, initial, isTaskRoot, host);
    var isInitial := IsInitial(route, initial, isTaskRoot);
    var target := if route.url.None? then NativeActivity else WebActivity;
    var extras := if route.url.None? then NativeExtras(c.navigationBarHidden, route) else WebExtras(c, route);
    if route.url.None? || DecideWeb(route, initial, c.prevRoute, host) == SameHost {
      assert o.events == Launch(target, extras, isInitial, IsReplace(route));
      assert Started(o.events)[0].flags == LaunchFlags(isInitial);
    }
  }

  /** The calling activity is finished, after the start, exactly when the action
      is replace and the launch stayed in the app. */
  lemma FinishExactlyOnInAppReplace(c: Config, route: Route, initial: bool, isTaskRoot: bool, host: HostOf)
    ensures var o := Visit(c, route, initial, isTaskRoot, host);
      var inApp := Started(o.events) != [] && Started(o.events)[0].ForActivity?;
      Finishes(o.events) == (if route.action == ActionReplace && inApp then 1 else 0) &&
      (Finishes(o.events) > 0 ==> o.events[|o.events| - 1] == Finish)
  {
    var o := Visit(c, route, initial, isTaskRoot, host);
    var isInitial := IsInitial(route, initial, isTaskRoot);
    if route.url.None? {
      assert o.events == Launch(NativeActivity, NativeExtras(c.navigationBarHidden, route), isInitial, IsReplace(route));
    } else {
      match DecideWeb(route, initial, c.prevRoute, host)
      case SameHost =>
        assert o.events == Launch(WebActivity, WebExtras(c, route), isInitial, IsReplace(route));
      case OtherHost =>
        assert o.events == [StartActivity(ActionView(route.url.value))];
        assert Started(o.events) == [ActionView(route.url.value)];
      case Malformed =>
        assert o.events == [];
    }
  }

  /** The host comparison: against the route's own URL on a first or caller-
      initial visit, otherwise against the previous route's URL. So a first visit
      whose URL parses always stays in the app. */
  lemma HostComparison(c: Config, route: Route, initial: bool, isTaskRoot: bool, host: HostOf)
    requires route.url.Some? && host(route.url.value).Some?
    ensures var o := Visit(c, route, initial, isTaskRoot, host);
      var inApp := Started(o.events) != [] && Started(o.events)[0] != ActionView(route.url.value);
      ((initial || c.prevRoute.None?) ==> inApp) &&
      (!initial && c.prevRoute.Some? && HostOfUrl(host, c.prevRoute.value.url).Some? ==>
         (inApp <==> HostOfUrl(host, c.prevRoute.value.url) == host(route.url.value)))
  {
  }

  /** A malformed URL, the route's own or the one it is compared with, abandons
      the visit: nothing is started, reset or finished, and the state is kept. */
  lemma MalformedUrlAborts(c: Config, route: Route, initial: bool, isTaskRoot: bool, host: HostOf)
    requires route.url.Some?
    requires host(route.url.value).None? || HostOfUrl(host, ComparisonUrl(route, initial, c.prevRoute)).None?
    ensures Visit(c, route, initial, isTaskRoot, host) == Outcome(c, [])
  {
  }

  /** Different hosts hand the URL to an external application: one ACTION_VIEW
      start and nothing else, no flags, no reset, no finish even for a replace, and
      the state is kept. */
  lemma OtherHostOpensExternally(c: Config, route: Route, initial: bool, isTaskRoot: bool, host: HostOf)
    requires route.url.Some?
    requires var prevHost := HostOfUrl(host, ComparisonUrl(route, initial, c.prevRoute));
      prevHost.Some? && host(route.url.value).Some? && prevHost != host(route.url.value)
    ensures var o := Visit(c, route, initial, isTaskRoot, host);
      o == Outcome(c, [StartActivity(ActionView(route.url.value))]) &&
      Started(o.events) == [ActionView(route.url.value)] && Resets(o.events) == 0 && Finishes(o.events) == 0
  {
  }

  /** The comparison URL follows the caller's flag, not the derived one: a replace
      from the task root with `initial` false is a new-root launch if it stays in
      the app, yet it is compared with the previous route and may leave the app. */
  lemma ComparisonIgnoresDerivedInitial(host: HostOf)
    requires host("https://a.com/x") == Some("a.com")
    requires host("https://b.com/y") == Some("b.com")
    ensures var prev := Route(Some("https://a.com/x"), "advance", None);
      var route := Route(Some("https://b.com/y"), "replace", None);
      IsInitial(route, false, true) &&
      Visit(Initial.(prevRoute := Some(prev)), route, false, true, host).events
        == [StartActivity(ActionView("https://b.com/y"))]
  {
    var prev := Route(Some("https://a.com/x"), "advance", None);
    var route := Route(Some("https://b.com/y"), "replace", None);
    assert "a.com" != "b.com" by { assert "a.com"[0] != "b.com"[0]; }
    assert DecideWeb(route, false, Some(prev), host) == OtherHost;
  }

  /** A replace from the task root of a route whose URL parses, with no previous
      route: an in-app web launch, new-root flags, one reset before the start, and
      the caller finished after it. */
  lemma ReplaceFromTaskRoot(host: HostOf)
    requires host("https://b.com/y") == Some("b.com")
    ensures var route := Route(Some("https://b.com/y"), "replace", None);
      var o := Visit(Initial, route, false, true, host);
      o.next == Initial.(prevRoute := Some(route)) &&
      o.events == [ResetSession,
                   StartActivity(ForActivity(WebActivity, NewRootFlags, WebExtras(Initial, route))),
                   Finish]
  {
  }

  /** An explicitly initial advance to a URL that parses: an in-app web launch
      with the new-root flags and one reset before it, and no finish. */
  lemma InitialAdvance(c: Config, host: HostOf)
    requires host("https://a.com/x") == Some("a.com")
    ensures var route := Route(Some("https://a.com/x"), "advance", None);
      var o := Visit(c, route, true, false, host);
      o.next == c.(prevRoute := Some(route)) &&
      Started(o.events) == [ForActivity(WebActivity, NewRootFlags, WebExtras(c, route))] &&
      Resets(o.events) == 1 && o.events[0] == ResetSession && Finishes(o.events) == 0
  {
    var route := Route(Some("https://a.com/x"), "advance", None);
    assert !IsReplace(route) by { assert route.action[0] != ActionReplace[0]; }
  }

  // ---------------------------------------------------------------------------
  // Sequences of bridge calls

  /** The bridge calls that reach the modelled state. */
  datatype Call =
    | VisitCall(route: Route, initial: bool, isTaskRoot: bool)
    | VisitTabBarCall(routes: seq<Route>, selectedIndex: int)
    | SetMessageHandlerCall(handler: Option<string>)
    | SetUserAgentCall(userAgent: Option<string>)
    | SetNavigationBarHiddenCall(hidden: bool)
    | SetNavigationBarStyleCall
    | SetLoadingStyleCall
    | SetTabBarStyleCall

  /** Every URL the module remembers parses. */
  predicate PrevRouteParses(c: Config, host: HostOf) {
    c.prevRoute.Some? ==> HostOfUrl(host, c.prevRoute.value.url).Some?
  }

  /** A visit changes no configuration field, and changes prevRoute only when it
      starts the web activity, to the route it launched; every web visit that
      stays in the app does set it. So a remembered URL is always one that parsed. */
  lemma VisitMovesPrevRoute(c: Config, route: Route, initial: bool, isTaskRoot: bool, host: HostOf)
    ensures var o := Visit(c, route, initial, isTaskRoot, host);
      o.next.(prevRoute := c.prevRoute) == c &&
      (o.next.prevRoute != c.prevRoute ==>
         route.url.Some? && o.next.prevRoute == Some(route) &&
         Started(o.events) != [] && Started(o.events)[0].ForActivity? &&
         Started(o.events)[0].target == WebActivity) &&
      (route.url.Some? && Started(o.events) != [] && Started(o.events)[0].ForActivity? ==>
         o.next.prevRoute == Some(route)) &&
      (PrevRouteParses(c, host) ==> PrevRouteParses(o.next, host))
  {
    var o := Visit(c, route, initial, isTaskRoot, host);
    if route.url.Some? {
      match DecideWeb(route, initial, c.prevRoute, host)
      case SameHost =>
        var extras := WebExtras(c, route);
        var isInitial := IsInitial(route, initial, isTaskRoot);
        assert o.events == Launch(WebActivity, extras, isInitial, IsReplace(route));
        assert Started(o.events) == [ForActivity(WebActivity, LaunchFlags(isInitial), extras)];
      case OtherHost =>
        assert o.events == [StartActivity(ActionView(route.url.value))];
        assert Started(o.events) == [ActionView(route.url.value)];
      case Malformed =>
        assert o.events == [];
    }
  }

  /** One bridge call. Each setter overwrites its own field only and has no other
      effect; the style setters do nothing; a visit that starts the web activity
      remembers its route, and only a visit that stays in the app on the web path moves
      prevRoute, to the route it launched. */
  function Step(c: Config, call: Call, host: HostOf): (o: Outcome)
    ensures o.next.messageHandler == (if call.SetMessageHandlerCall? then call.handler else c.messageHandler)
    ensures o.next.userAgent == (if call.SetUserAgentCall? then call.userAgent else c.userAgent)
    ensures o.next.navigationBarHidden
            == (if call.SetNavigationBarHiddenCall? then call.hidden else c.navigationBarHidden)
    ensures o.next.prevRoute != c.prevRoute ==>
              call.VisitCall? && call.route.url.Some? && o.next.prevRoute == Some(call.route) &&
              Started(o.events) != [] && Started(o.events)[0].ForActivity? &&
              Started(o.events)[0].target == WebActivity
    ensures call.VisitCall? && call.route.url.Some? &&
            Started(o.events) != [] && Started(o.events)[0].ForActivity? ==>
              o.next.prevRoute == Some(call.route)
    ensures PrevRouteParses(c, host) ==> PrevRouteParses(o.next, host)
    ensures call.SetMessageHandlerCall? || call.SetUserAgentCall? || call.SetNavigationBarHiddenCall? ==>
              o.events == []
    ensures call.SetNavigationBarStyleCall? || call.SetLoadingStyleCall? || call.SetTabBarStyleCall? ==>
              o == Outcome(c, [])
  {
    match call
    case VisitCall(route, initial, isTaskRoot) =>
      VisitMovesPrevRoute(c, route, initial, isTaskRoot, host);
      Visit(c, route, initial, isTaskRoot, host)
    case VisitTabBarCall(routes, selectedIndex) => VisitTabBar(c, routes, selectedIndex)
    case SetMessageHandlerCall(handler) => Outcome(c.(messageHandler := handler), [])
    case SetUserAgentCall(userAgent) => Outcome(c.(userAgent := userAgent), [])
    case SetNavigationBarHiddenCall(hidden) => Outcome(c.(navigationBarHidden := hidden), [])
    case SetNavigationBarStyleCall => Outcome(c, [])
    case SetLoadingStyleCall => Outcome(c, [])
    case SetTabBarStyleCall => Outcome(c, [])
  }

  /** The three style setters change nothing and do nothing, from any state. */
  lemma StyleSettersChangeNothing(c: Config, host: HostOf)
    ensures Step(c, SetNavigationBarStyleCall, host) == Outcome(c, [])
    ensures Step(c, SetLoadingStyleCall, host) == Outcome(c, [])
    ensures Step(c, SetTabBarStyleCall, host) == Outcome(c, [])
  {
  }

  /** The state after a sequence of calls; every remembered URL still parses. */
  function Run(c: Config, calls: seq<Call>, host: HostOf): (r: Config)
    ensures PrevRouteParses(c, host) ==> PrevRouteParses(r, host)
    decreases |calls|
  {
    if calls == [] then c else Run(Step(c, calls[0], host).next, calls[1..], host)
  }

  /** Running one more call is running the prefix and then that call. */
  lemma {:induction false} RunSnoc(c: Config, calls: seq<Call>, call: Call, host: HostOf)
    ensures Run(c, calls + [call], host) == Step(Run(c, calls, host), call, host).next
    decreases |calls|
  {
    if calls != [] {
      assert (calls + [call])[1..] == calls[1..] + [call];
      RunSnoc(Step(c, calls[0], host).next, calls[1..], call, host);
    }
  }

  /** The value the last call with something to write wrote, or `default` when no
      call writes. */
  function LastWrite<T>(calls: seq<Call>, write: Call -> Option<T>, default: T): T {
    if calls == [] then default
    else match write(calls[|calls| - 1])
      case Some(v) => v
      case None => LastWrite(calls[..|calls| - 1], write, default)
  }

  function HandlerWrite(call: Call): Option<Option<string>> {
    if call.SetMessageHandlerCall? then Some(call.handler) else None
  }

  function UserAgentWrite(call: Call): Option<Option<string>> {
    if call.SetUserAgentCall? then Some(call.userAgent) else None
  }

  function NavigationBarWrite(call: Call): Option<bool> {
    if call.SetNavigationBarHiddenCall? then Some(call.hidden) else None
  }

  /** Last write wins: after any sequence of calls each configuration field holds
      what its setter was last called with, or what it held before when its setter
      was not called. */
  lemma {:induction false} RunLastWriteWins(c: Config, calls: seq<Call>, host: HostOf)
    ensures Run(c, calls, host).messageHandler == LastWrite(calls, HandlerWrite, c.messageHandler)
    ensures Run(c, calls, host).userAgent == LastWrite(calls, UserAgentWrite, c.userAgent)
    ensures Run(c, calls, host).navigationBarHidden
            == LastWrite(calls, NavigationBarWrite, c.navigationBarHidden)
  {
    if calls != [] {
      var prefix, last := calls[..|calls| - 1], calls[|calls| - 1];
      assert calls == prefix + [last];
      RunSnoc(c, prefix, last, host);
      RunLastWriteWins(c, prefix, host);
    }
  }

  /** Two visits one after the other: once the first stayed in the app, a
      non-initial second visit stays in the app exactly when its host is the
      first one's. */
  lemma SuccessiveVisits(c: Config, first: Route, second: Route, i1: bool, t1: bool, t2: bool, host: HostOf)
    requires first.url.Some? && second.url.Some?
    requires host(second.url.value).Some?
    requires DecideWeb(first, i1, c.prevRoute, host) == SameHost
    ensures var o1 := Visit(c, first, i1, t1, host);
      var o2 := Visit(o1.next, second, false, t2, host);
      Started(o2.events) != [] &&
      (Started(o2.events)[0] != ActionView(second.url.value) <==> host(first.url.value) == host(second.url.value))
  {
    var o1 := Visit(c, first, i1, t1, host);
    assert o1.next.prevRoute == Some(first);
    var o2 := Visit(o1.next, second, false, t2, host);
    var isInitial := IsInitial(second, false, t2);
    match DecideWeb(second, false, o1.next.prevRoute, host)
    case SameHost =>
      assert o2.events == Launch(WebActivity, WebExtras(o1.next, second), isInitial, IsReplace(second));
    case OtherHost =>
      assert o2.events == [StartActivity(ActionView(second.url.value))];
    case Malformed =>
      assert false;
  }
}
