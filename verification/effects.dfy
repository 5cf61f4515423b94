/** The Android runtime as the navigation bridge sees it: routes, intents, and the
    ordered side effects (session resets, activity starts, finishes) that one bridge
    call performs. Nothing here decides anything; Navigation does. */
module Effects {

  /** Java's nullable references: None stands for null. */
  datatype Option<+T> = None | Some(value: T)

  /** The decoded route. Only the URL and the action take part in dispatch; the
      native component name is carried along to the launched activity. */
  datatype Route = Route(url: Option<string>, action: string, component: Option<string>)

  /** The action that replaces the current screen instead of pushing a new one
      (the "replace" entry of the exported Action table). */
  const ActionReplace: string := "replace"

  /** The intent flags the bridge uses, all of them only together. */
  datatype Flag = MultipleTask | NewTask | ClearTask | NoAnimation

  /** The flags of a new-root launch: a fresh task with an empty back stack and no
      entry animation. */
  const NewRootFlags: set<Flag> := {MultipleTask, NewTask, ClearTask, NoAnimation}

  /** The keys under which the bridge puts extras into an intent. */
  const IntentNavigationBarHidden: string := "intentNavigationBarHidden"
  const IntentMessageHandler: string := "intentMessageHandler"
  const IntentUserAgent: string := "intentUserAgent"
  const IntentRoute: string := "intentRoute"
  const IntentRoutes: string := "intentRoutes"
  const IntentSelectedIndex: string := "intentSelectedIndex"

  /** A value stored as an intent extra. */
  datatype Extra =
    | StringExtra(text: Option<string>)
    | BoolExtra(flag: bool)
    | IntExtra(number: int)
    | RouteExtra(route: Route)
    | RouteListExtra(routes: seq<Route>)

  /** The three activities of the library that the bridge can start. */
  datatype Target = WebActivity | NativeActivity | TabbedActivity

  /** An explicit intent for one of the library's activities, or an implicit
      ACTION_VIEW intent that hands a URL to whatever application handles it. */
  datatype Intent =
    | ForActivity(target: Target, flags: set<Flag>, extras: map<string, Extra>)
    | ActionView(uri: string)

  /** One side effect of a bridge call, in the order it happens. */
  datatype Event =
    | ResetSession              // TurbolinksSession.resetDefault()
    | StartActivity(intent: Intent)
    | Finish                    // finish() on the activity that made the call

  /** How many times the events reset the shared session. */
  function Resets(events: seq<Event>): nat {
    multiset(events)[ResetSession]
  }

  /** How many times the events finish the calling activity. */
  function Finishes(events: seq<Event>): nat {
    multiset(events)[Finish]
  }

  /** The intents the events start, in order. */
  function Started(events: seq<Event>): seq<Intent> {
    if events == [] then []
    else
      (if events[0].StartActivity? then [events[0].intent] else []) + Started(events[1..])
  }

  /** Starting is compositional: the intents started by two runs of events one
      after the other are those of the first run followed by those of the second. */
  lemma {:induction false} StartedAppend(a: seq<Event>, b: seq<Event>)
    ensures Started(a + b) == Started(a) + Started(b)
  {
    if a == [] {
      assert a + b == b;
    } else {
      var head := if a[0].StartActivity? then [a[0].intent] else [];
      assert (a + b)[0] == a[0];
      assert (a + b)[1..] == a[1..] + b;
      StartedAppend(a[1..], b);
      calc {
        Started(a + b);
        head + Started(a[1..] + b);
        head + (Started(a[1..]) + Started(b));
        (head + Started(a[1..])) + Started(b);
        Started(a) + Started(b);
      }
    }
  }
}
