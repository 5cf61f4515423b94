/** The bridge module object: four fields that its methods update in place, and
    the navigation calls that read them. Each method is proved against the
    corresponding function of Navigation. */
module Bridge {
  import opened Effects
  import Navigation

  class RNTurbolinksModule {
    var prevRoute: Option<Route>
    var messageHandler: Option<string>
    var userAgent: Option<string>
    var navigationBarHidden: bool

    /** The fields as a value. */
    function Config(): Navigation.Config
      reads this
    {
      Navigation.Config(prevRoute, messageHandler, userAgent, navigationBarHidden)
    }

    constructor ()
      ensures Config() == Navigation.Initial
    {
      prevRoute := None;
      messageHandler := None;
      userAgent := None;
      navigationBarHidden := false;
    }

    /** visit. `isTaskRoot` is what the current activity reports; `host` is the
        URL parser. */
    method Visit(route: Route, initial: bool, isTaskRoot: bool, host: Navigation.HostOf)
      returns (events: seq<Event>)
      modifies this
      ensures Navigation.Outcome(Config(), events)
              == Navigation.Visit(old(Config()), route, initial, isTaskRoot, host)
    {
      if route.url.Some? {
        events := PresentActivityForSession(route, initial, isTaskRoot, host);
      } else {
        events := PresentNativeView(route, initial, isTaskRoot);
      }
    }

    method SetMessageHandler(messageHandler: Option<string>)
      modifies this`messageHandler
      ensures Config() == old(Config()).(messageHandler := messageHandler)
    {
      this.messageHandler := messageHandler;
    }

    method SetUserAgent(userAgent: Option<string>)
      modifies this`userAgent
      ensures Config() == old(Config()).(userAgent := userAgent)
    {
      this.userAgent := userAgent;
    }

    method SetNavigationBarHidden(navigationBarHidden: bool)
      modifies this`navigationBarHidden
      ensures Config() == old(Config()).(navigationBarHidden := navigationBarHidden)
    {
      this.navigationBarHidden := navigationBarHidden;
    }

    /** visitTabBar: reads the fields and changes none of them. */
    method VisitTabBar(routes: seq<Route>, selectedIndex: int) returns (events: seq<Event>)
      ensures Navigation.Outcome(Config(), events) == Navigation.VisitTabBar(Config(), routes, selectedIndex)
    {
      var extras := map[IntentMessageHandler := StringExtra(messageHandler)];
      extras := extras[IntentUserAgent := StringExtra(userAgent)];
      extras := extras[IntentNavigationBarHidden := BoolExtra(navigationBarHidden)];
      extras := extras[IntentSelectedIndex := IntExtra(selectedIndex)];
      var flags: set<Flag> := {};
      flags := flags + {MultipleTask};
      flags := flags + {NewTask};
      flags := flags + {ClearTask};
      flags := flags + {NoAnimation};
      extras := extras[IntentRoutes := RouteListExtra(routes)];
      events := [ResetSession];
      events := events + [StartActivity(ForActivity(TabbedActivity, flags, extras))];
      assert extras == Navigation.TabBarExtras(Config(), routes, selectedIndex);
      assert flags == NewRootFlags;
    }

    /** The three style setters accept a style and ignore it. */
    method SetNavigationBarStyle()
      ensures Config() == old(Config())
    {
    }

    method SetLoadingStyle()
      ensures Config() == old(Config())
    {
    }

    method SetTabBarStyle()
      ensures Config() == old(Config())
    {
    }

    /** presentActivityForSession: compare hosts, then launch in the app, hand the
        URL to another application, or give up on a malformed URL. */
    method PresentActivityForSession(route: Route, initial: bool, isTaskRoot: bool, host: Navigation.HostOf)
      returns (events: seq<Event>)
      modifies this`prevRoute
      ensures Navigation.Outcome(Config(), events)
              == Navigation.WebVisit(old(Config()), route, initial, isTaskRoot, host)
    {
      var isActionReplace := route.action == ActionReplace;
      var isInitial := if isActionReplace then isTaskRoot else initial;
      var prevUrl := if initial || prevRoute.None? then route.url else prevRoute.value.url;
      var prevHost := Navigation.HostOfUrl(host, prevUrl);
      var nextHost := Navigation.HostOfUrl(host, route.url);
      if prevHost.None? || nextHost.None? {
        // MalformedURLException: logged, nothing else happens
        assert Navigation.DecideWeb(route, initial, prevRoute, host) == Navigation.Malformed;
        events := [];
        return;
      }
      if prevHost == nextHost {
        var extras := map[IntentMessageHandler := StringExtra(messageHandler)];
        extras := extras[IntentUserAgent := StringExtra(userAgent)];
        extras := extras[IntentNavigationBarHidden := BoolExtra(navigationBarHidden)];
        extras := extras[IntentRoute := RouteExtra(route)];
        assert extras == Navigation.WebExtras(Config(), route);
        assert Navigation.DecideWeb(route, initial, prevRoute, host) == Navigation.SameHost;
        events := LaunchInApp(WebActivity, extras, isInitial, isActionReplace);
        prevRoute := Some(route);
      } else {
        assert Navigation.DecideWeb(route, initial, prevRoute, host) == Navigation.OtherHost;
        events := [StartActivity(ActionView(route.url.value))];
      }
    }

    /** presentNativeView: reads only the navigation-bar flag. */
    method PresentNativeView(route: Route, initial: bool, isTaskRoot: bool) returns (events: seq<Event>)
      ensures Navigation.Outcome(Config(), events)
              == Navigation.NativeVisit(Config(), route, initial, isTaskRoot)
    {
      var isActionReplace := route.action == ActionReplace;
      var isInitial := if isActionReplace then isTaskRoot else initial;
      var extras := map[IntentNavigationBarHidden := BoolExtra(navigationBarHidden)];
      extras := extras[IntentRoute := RouteExtra(route)];
      assert extras == Navigation.NativeExtras(navigationBarHidden, route);
      events := LaunchInApp(NativeActivity, extras, isInitial, isActionReplace);
    }

    /** The part presentActivityForSession and presentNativeView share: add the
        new-task flags and reset the session for an initial launch, start the
        activity, then finish the caller for a replace. */
    method LaunchInApp(target: Target, extras: map<string, Extra>, isInitial: bool, isActionReplace: bool)
      returns (events: seq<Event>)
      ensures events == Navigation.Launch(target, extras, isInitial, isActionReplace)
    {
      var flags: set<Flag> := {};
      events := [];
      if isInitial {
        flags := flags + {MultipleTask};
        flags := flags + {NewTask};
        flags := flags + {ClearTask};
        flags := flags + {NoAnimation};
        events := events + [ResetSession];
      }
      events := events + [StartActivity(ForActivity(target, flags, extras))];
      if isActionReplace {
        events := events + [Finish];
      }
      assert flags == Navigation.LaunchFlags(isInitial);
    }
  }
}
