/** internal/server/api_bird.go and api_settings.go: handlers that read the configuration,
    change their copy and write it back, without holding the lock in between. */
module WebConfig {
  import opened Options
  import Ipv4
  import Bird
  import opened AppConfig

  // What one post does to the configuration.
  datatype Change = SetBird(bird: Bird.Config) | SetRuntime(runtime: Runtime)

  function Applied(c: Change, cfg: App): App {
    match c
    case SetBird(bird) => cfg.(bird := bird)
    case SetRuntime(runtime) => cfg.(runtime := runtime)
  }

  // What is shared: the configuration in memory and the two files; and a record of every
  // configuration Save was called with, of every BIRD part whose text was written to its
  // file, and of the changes put in memory, in that order.
  datatype Shared = Shared(
    cfg: App,
    birdFile: Option<string>,
    disk: Option<App>,
    attempts: seq<App>,
    written: seq<Bird.Config>,
    done: seq<Change>)

  function Fresh(cfg: App): Shared {
    Shared(cfg, None, None, [], [], [])
  }

  datatype Post =
    | BirdPost(next: Bird.Config)
    | SettingsPost(autoStart: bool, pinDashboardClientRoute: bool, pinnedClientRoutes: seq<string>)

  // Where a handler is: it has the request; it has copied the configuration; its change to
  // the copy is about to be saved; saved and about to be put in memory; answered.
  datatype Handler =
    | Received(post: Post)
    | Copied(post: Post, copy: App)
    | Ready(change: Change, copy: App)
    | Saved(change: Change, copy: App)
    | Answered(ok: bool)

  datatype Local = Local(shared: Shared, handler: Handler)

  function BirdText(v6: Ipv4.V6Syntax, c: Bird.Config): string {
    match Bird.Generate(v6, c)
    case Ok(text) => text
    case Err(_) => ""
  }

  // One uninterrupted stretch of a handler; io is the outcome of the file write in it.
  function Advance(v6: Ipv4.V6Syntax, s: Shared, h: Handler, io: bool): Local {
    match h
    case Answered(_) => Local(s, h)
    case Received(BirdPost(next)) =>
      if Bird.Generate(v6, next.WithDefaults()).Err? then Local(s, Answered(false))
      else Local(s, Copied(BirdPost(next.WithDefaults()), s.cfg))
    case Received(SettingsPost(_, _, _)) => Local(s, Copied(h.post, s.cfg))
    case Copied(BirdPost(next), copy) =>
      if !io then Local(s, Answered(false))
      else Local(s.(birdFile := Some(BirdText(v6, next)), written := s.written + [next]), Ready(SetBird(next), copy))
    case Copied(SettingsPost(auto, pin, routes), copy) =>
      (match Normalized(v6, routes)
       case Err(_) => Local(s, Answered(false))
       case Ok(pinned) => Local(s, Ready(SetRuntime(Runtime(auto, pin, pinned)), copy)))
    case Ready(change, copy) =>
      var s1 := s.(attempts := s.attempts + [Applied(change, copy)]);
      if io then Local(s1.(disk := Some(Applied(change, copy))), Saved(change, copy)) else Local(s1, Answered(false))
    case Saved(change, copy) => Local(s.(cfg := Applied(change, copy), done := s.done + [change]), Answered(true))
  }

  // ------------------------------------------------------------- the handlers' code

  // A handler that is not interrupted.
  function Alone(v6: Ipv4.V6Syntax, s: Shared, h: Handler, ios: seq<bool>): Local
    decreases |ios|
  {
    if ios == [] then Local(s, h)
    else
      var next := Advance(v6, s, h, ios[0]);
      Alone(v6, next.shared, next.handler, ios[1..])
  }

  class WebServer {
    var shared: Shared
    const v6: Ipv4.V6Syntax

    constructor (cfg: App, v6': Ipv4.V6Syntax)
      ensures shared == Fresh(cfg) && v6 == v6'
    {
      shared, v6 := Fresh(cfg), v6';
    }

    method Save(cfg: App, saveOk: bool) returns (ok: bool)
      modifies this
      ensures ok == saveOk
      ensures shared == old(shared).(attempts := old(shared.attempts) + [cfg],
                                       disk := if ok then Some(cfg) else old(shared.disk))
    {
      shared := shared.(attempts := shared.attempts + [cfg]);
      if saveOk {
        shared := shared.(disk := Some(cfg));
      }
      ok := saveOk;
    }

    method PostBirdConfig(payload: Bird.Config, writeOk: bool, saveOk: bool) returns (ok: bool)
      modifies this
      ensures Local(shared, Answered(ok)) ==
              Alone(v6, old(shared), Received(BirdPost(payload)), [true, writeOk, saveOk, true])
    {
      hide Bird.Generate;
      AloneFour(v6, shared, Received(BirdPost(payload)), writeOk, saveOk);
      var next := payload.WithDefaults();
      var generated := Bird.Generate(v6, next);
      if generated.Err? {
        return false;
      }
      var cfg := shared.cfg;
      cfg := cfg.(bird := next);
      if !writeOk {
        return false;
      }
      shared := shared.(birdFile := Some(generated.text), written := shared.written + [next]);
      var saved := Save(cfg, saveOk);
      if !saved {
        return false;
      }
      shared := shared.(cfg := cfg, done := shared.done + [SetBird(next)]);
      ok := true;
    }

    method PostSettings(auto: bool, pin: bool, routes: seq<string>, saveOk: bool) returns (ok: bool)
      modifies this
      ensures Local(shared, Answered(ok)) ==
              Alone(v6, old(shared), Received(SettingsPost(auto, pin, routes)), [true, true, saveOk, true])
    {
      hide Normalized;
      AloneFour(v6, shared, Received(SettingsPost(auto, pin, routes)), true, saveOk);
      var cfg := shared.cfg;
      var pinned := NormalizePinnedClientRoutes(v6, routes);
      if pinned.Err? {
        return false;
      }
      var runtime := Runtime(auto, pin, pinned.value);
      cfg := cfg.(runtime := runtime);
      var saved := Save(cfg, saveOk);
      if !saved {
        return false;
      }
      shared := shared.(cfg := cfg, done := shared.done + [SetRuntime(runtime)]);
      ok := true;
    }
  }

  lemma AloneNext(v6: Ipv4.V6Syntax, s: Shared, h: Handler, io: bool, rest: seq<bool>)
    ensures Alone(v6, s, h, [io] + rest) == Alone(v6, Advance(v6, s, h, io).shared, Advance(v6, s, h, io).handler, rest)
  {
    assert ([io] + rest)[1..] == rest;
  }

  lemma AloneFour(v6: Ipv4.V6Syntax, s: Shared, h: Handler, writeOk: bool, saveOk: bool)
    ensures var l1 := Advance(v6, s, h, true);
            var l2 := Advance(v6, l1.shared, l1.handler, writeOk);
            var l3 := Advance(v6, l2.shared, l2.handler, saveOk);
            Alone(v6, s, h, [true, writeOk, saveOk, true]) == Advance(v6, l3.shared, l3.handler, true)
  {
    hide Advance;
    var l1 := Advance(v6, s, h, true);
    var l2 := Advance(v6, l1.shared, l1.handler, writeOk);
    var l3 := Advance(v6, l2.shared, l2.handler, saveOk);
    AloneNext(v6, s, h, true, [writeOk, saveOk, true]);
    AloneNext(v6, l1.shared, l1.handler, writeOk, [saveOk, true]);
    AloneNext(v6, l2.shared, l2.handler, saveOk, [true]);
    AloneNext(v6, l3.shared, l3.handler, true, []);
    assert [true] + [writeOk, saveOk, true] == [true, writeOk, saveOk, true];
    assert [writeOk] + [saveOk, true] == [writeOk, saveOk, true];
    assert [saveOk] + [true] == [saveOk, true];
    assert [true] + [] == [true];
  }

  // ------------------------------------------------------------- any interleaving

  datatype System = System(shared: Shared, handlers: seq<Handler>)

  datatype Event = Receive(post: Post) | Move(handler: nat, io: bool)

  function Step(v6: Ipv4.V6Syntax, sys: System, e: Event): System {
    match e
    case Receive(post) => sys.(handlers := sys.handlers + [Received(post)])
    case Move(i, io) =>
      if i >= |sys.handlers| then sys
      else
        var next := Advance(v6, sys.shared, sys.handlers[i], io);
        System(next.shared, sys.handlers[i := next.handler])
  }

  function Run(v6: Ipv4.V6Syntax, sys: System, events: seq<Event>): System
    decreases |events|
  {
    if events == [] then sys else Run(v6, Step(v6, sys, events[0]), events[1..])
  }

  // The parts no handler changes.
  predicate SameFixed(a: App, b: App) {
    && a.listenAddr == b.listenAddr && a.configDir == b.configDir
    && a.birdConfigPath == b.birdConfigPath && a.wireGuard == b.wireGuard
  }

  predicate Good(v6: Ipv4.V6Syntax, cwd: string, origin: App, cfg: App) {
    Managed(v6, cwd, cfg) && SameFixed(cfg, origin)
  }

  predicate HandlerGood(v6: Ipv4.V6Syntax, cwd: string, origin: App, h: Handler) {
    match h
    case Received(_) => true
    case Copied(post, copy) =>
      Good(v6, cwd, origin, copy) && (post.BirdPost? ==> Bird.Generate(v6, post.next).Ok?)
    case Ready(change, copy) => Good(v6, cwd, origin, Applied(change, copy))
    case Saved(change, copy) => Good(v6, cwd, origin, Applied(change, copy))
    case Answered(_) => true
  }

  predicate SharedGood(v6: Ipv4.V6Syntax, cwd: string, origin: App, s: Shared) {
    && Good(v6, cwd, origin, s.cfg)
    && (s.disk.Some? ==> Good(v6, cwd, origin, s.disk.value))
    && (forall i | 0 <= i < |s.attempts| :: Good(v6, cwd, origin, s.attempts[i]))
  }

  predicate SystemGood(v6: Ipv4.V6Syntax, cwd: string, origin: App, sys: System) {
    && SharedGood(v6, cwd, origin, sys.shared)
    && forall i | 0 <= i < |sys.handlers| :: HandlerGood(v6, cwd, origin, sys.handlers[i])
  }

  lemma BirdChangeIsGood(v6: Ipv4.V6Syntax, cwd: string, origin: App, cfg: App, next: Bird.Config)
    requires Good(v6, cwd, origin, cfg) && Bird.Generate(v6, next).Ok?
    ensures Good(v6, cwd, origin, cfg.(bird := next))
  {
    ManagedMeaning(v6, cwd, cfg);
    ManagedMeaning(v6, cwd, cfg.(bird := next));
    GeneratedInterface(v6, next);
    hide Managed, Bird.Generate, RouteAddr, Bird.ValidInterfaceName;
  }

  lemma GeneratedInterface(v6: Ipv4.V6Syntax, c: Bird.Config)
    requires Bird.Generate(v6, c).Ok?
    ensures Bird.ValidInterfaceName(c.WithDefaults().iface)
  {
    hide Ipv4.ParseAddr, Bird.FirstBadRoute, Bird.Body;
  }

  lemma SettingsChangeIsGood(
      v6: Ipv4.V6Syntax, cwd: string, origin: App, cfg: App, auto: bool, pin: bool, routes: seq<string>)
    requires Good(v6, cwd, origin, cfg) && Normalized(v6, routes).Ok?
    ensures Good(v6, cwd, origin, cfg.(runtime := Runtime(auto, pin, Normalized(v6, routes).value)))
  {
    hide Managed, Normalized, Bird.ValidInterfaceName, RouteAddr;
    ManagedMeaning(v6, cwd, cfg);
    ManagedMeaning(v6, cwd, cfg.(runtime := Runtime(auto, pin, Normalized(v6, routes).value)));
    NormalizedAreAccepted(v6, routes);
  }

  lemma NormalizedAreAccepted(v6: Ipv4.V6Syntax, routes: seq<string>)
    requires Normalized(v6, routes).Ok?
    ensures var pinned := Normalized(v6, routes).value;
            forall i | 0 <= i < |pinned| :: RouteAddr(v6, pinned[i]).Some?
  {
    hide Normalized, RouteAddr, HostRoute, NormalizeRoute, Ipv4.ParsePrefix, InFirstOrder, Each;
    var pinned := Normalized(v6, routes).value;
    NormalizedAddresses(v6, routes);
    forall i | 0 <= i < |pinned|
      ensures RouteAddr(v6, pinned[i]).Some?
    {
      assert pinned[i] in pinned;
      var j :| 0 <= j < |routes| && IsNormalOf(v6, pinned[i], routes[j]);
      NormalIsAccepted(v6, RouteAddr(v6, routes[j]).value);
    }
  }

  lemma NormalIsAccepted(v6: Ipv4.V6Syntax, a: Ipv4.Addr)
    ensures RouteAddr(v6, HostRoute(a)).Some?
  {
    NormalRoute(v6, a);
    NormalizeRouteMeaning(v6, HostRoute(a));
  }

  lemma AdvanceKeepsGood(v6: Ipv4.V6Syntax, cwd: string, origin: App, s: Shared, h: Handler, io: bool)
    requires SharedGood(v6, cwd, origin, s) && HandlerGood(v6, cwd, origin, h)
    ensures var l := Advance(v6, s, h, io);
            SharedGood(v6, cwd, origin, l.shared) && HandlerGood(v6, cwd, origin, l.handler)
  {
    hide Good, Bird.Generate, Normalized;
    if h.Copied? {
      match h.post {
        case BirdPost(next) => BirdChangeIsGood(v6, cwd, origin, h.copy, next);
        case SettingsPost(auto, pin, routes) =>
          if Normalized(v6, routes).Ok? {
            SettingsChangeIsGood(v6, cwd, origin, h.copy, auto, pin, routes);
          }
      }
    }
  }

  // Even when updates are lost, every configuration that is ever in memory, on disk or
  // handed to Save passes the checks the server was started under, with the same paths and
  // interfaces.
  lemma {:induction false} ConfigAlwaysManaged(
      v6: Ipv4.V6Syntax, cwd: string, origin: App, sys: System, events: seq<Event>)
    requires SystemGood(v6, cwd, origin, sys)
    ensures SystemGood(v6, cwd, origin, Run(v6, sys, events))
    decreases |events|
  {
    hide SystemGood, Step;
    if events != [] {
      StepKeepsGood(v6, cwd, origin, sys, events[0]);
      ConfigAlwaysManaged(v6, cwd, origin, Step(v6, sys, events[0]), events[1..]);
    }
  }

  lemma StepKeepsGood(v6: Ipv4.V6Syntax, cwd: string, origin: App, sys: System, e: Event)
    requires SystemGood(v6, cwd, origin, sys)
    ensures SystemGood(v6, cwd, origin, Step(v6, sys, e))
  {
    hide SharedGood, Good, Advance;
    if e.Move? && e.handler < |sys.handlers| {
      AdvanceKeepsGood(v6, cwd, origin, sys.shared, sys.handlers[e.handler], e.io);
    }
  }

  // The server starts only with a configuration that passes.
  lemma ServerConfigAlwaysManaged(v6: Ipv4.V6Syntax, cwd: string, origin: App, events: seq<Event>)
    requires Managed(v6, cwd, origin)
    ensures var end := Run(v6, System(Fresh(origin), []), events).shared;
            && Managed(v6, cwd, end.cfg)
            && (end.disk.Some? ==> Managed(v6, cwd, end.disk.value))
            && forall i | 0 <= i < |end.attempts| :: Managed(v6, cwd, end.attempts[i])
  {
    hide Managed;
    ConfigAlwaysManaged(v6, cwd, origin, System(Fresh(origin), []), events);
  }

  // ------------------------------------------------------------- memory and disk

  // What is in memory was there from the start or has been saved.
  ghost predicate Traceable(origin: App, sys: System) {
    && (sys.shared.cfg == origin || sys.shared.cfg in sys.shared.attempts)
    && (sys.shared.disk.Some? ==> sys.shared.disk.value in sys.shared.attempts)
    && forall i | 0 <= i < |sys.handlers| && sys.handlers[i].Saved? ::
         Applied(sys.handlers[i].change, sys.handlers[i].copy) in sys.shared.attempts
  }

  lemma {:induction false} MemoryWasSaved(v6: Ipv4.V6Syntax, origin: App, sys: System, events: seq<Event>)
    requires Traceable(origin, sys)
    ensures Traceable(origin, Run(v6, sys, events))
    decreases |events|
  {
    hide Bird.Generate, Normalized, BirdText, Applied;
    if events != [] {
      MemoryWasSaved(v6, origin, Step(v6, sys, events[0]), events[1..]);
    }
  }

  // ------------------------------------------------------------- write-backs in order

  // The changes made one after the other.
  function Serial(origin: App, changes: seq<Change>): App {
    if changes == [] then origin
    else Applied(changes[|changes| - 1], Serial(origin, changes[..|changes| - 1]))
  }

  // The move puts a copy in memory whose other part is not the one in memory any more.
  predicate StaleWrite(sys: System, e: Event) {
    && e.Move? && e.handler < |sys.handlers| && sys.handlers[e.handler].Saved?
    && var h := sys.handlers[e.handler];
       match h.change
       case SetBird(_) => h.copy.runtime != sys.shared.cfg.runtime
       case SetRuntime(_) => h.copy.bird != sys.shared.cfg.bird
  }

  predicate NoStaleWrite(v6: Ipv4.V6Syntax, sys: System, events: seq<Event>)
    decreases |events|
  {
    events == [] || (!StaleWrite(sys, events[0]) && NoStaleWrite(v6, Step(v6, sys, events[0]), events[1..]))
  }

  // Throughout the run, memory is as if the posts that have finished had been handled one
  // after the other, in the order of their write-backs.
  predicate SerialThroughout(v6: Ipv4.V6Syntax, origin: App, sys: System, events: seq<Event>)
    decreases |events|
  {
    && sys.shared.cfg == Serial(origin, sys.shared.done)
    && (events != [] ==> SerialThroughout(v6, origin, Step(v6, sys, events[0]), events[1..]))
  }

  // The parts no post changes.
  predicate CopiesFixed(origin: App, sys: System) {
    && SameFixed(sys.shared.cfg, origin)
    && forall i | 0 <= i < |sys.handlers| ::
         match sys.handlers[i]
         case Copied(_, copy) => SameFixed(copy, origin)
         case Ready(_, copy) => SameFixed(copy, origin)
         case Saved(_, copy) => SameFixed(copy, origin)
         case _ => true
  }

  lemma StepKeepsFixed(v6: Ipv4.V6Syntax, origin: App, sys: System, e: Event)
    requires CopiesFixed(origin, sys)
    ensures CopiesFixed(origin, Step(v6, sys, e))
  {
    hide Bird.Generate, Normalized, BirdText;
  }

  lemma SerialSnoc(origin: App, changes: seq<Change>, c: Change)
    ensures Serial(origin, changes + [c]) == Applied(c, Serial(origin, changes))
  {
    assert (changes + [c])[..|changes|] == changes;
  }

  // One move keeps memory serial exactly if it is no stale write-back.
  lemma StepSerial(v6: Ipv4.V6Syntax, origin: App, sys: System, e: Event)
    requires CopiesFixed(origin, sys) && sys.shared.cfg == Serial(origin, sys.shared.done)
    ensures var next := Step(v6, sys, e).shared; next.cfg == Serial(origin, next.done) <==> !StaleWrite(sys, e)
  {
    hide Bird.Generate, Normalized, BirdText, Serial;
    if e.Move? && e.handler < |sys.handlers| && sys.handlers[e.handler].Saved? {
      SerialSnoc(origin, sys.shared.done, sys.handlers[e.handler].change);
    }
  }

  // A run is serial throughout exactly if no write-back in it is stale: whenever a handler
  // puts its copy in memory, the part it did not set is still the one it copied.
  lemma {:induction false} SerialExactly(v6: Ipv4.V6Syntax, origin: App, sys: System, events: seq<Event>)
    requires CopiesFixed(origin, sys) && sys.shared.cfg == Serial(origin, sys.shared.done)
    ensures SerialThroughout(v6, origin, sys, events) <==> NoStaleWrite(v6, sys, events)
    decreases |events|
  {
    hide Step, StaleWrite, Serial, CopiesFixed;
    if events != [] {
      var next := Step(v6, sys, events[0]);
      StepSerial(v6, origin, sys, events[0]);
      StepKeepsFixed(v6, origin, sys, events[0]);
      if next.shared.cfg == Serial(origin, next.shared.done) {
        SerialExactly(v6, origin, next, events[1..]);
      }
    }
  }

  // The configuration a handler has copied, while it has it.
  function CopyOf(h: Handler): Option<App> {
    match h
    case Copied(_, copy) => Some(copy)
    case Ready(_, copy) => Some(copy)
    case Saved(_, copy) => Some(copy)
    case _ => None
  }

  lemma {:induction false} CopyStays(v6: Ipv4.V6Syntax, sys: System, i: nat, events: seq<Event>)
    requires i < |sys.handlers| && !sys.handlers[i].Received?
    ensures var end := Run(v6, sys, events);
            && i < |end.handlers| && !end.handlers[i].Received?
            && (CopyOf(end.handlers[i]).Some? ==> CopyOf(end.handlers[i]) == CopyOf(sys.handlers[i]))
    decreases |events|
  {
    hide Bird.Generate, Normalized, BirdText, Applied;
    if events != [] {
      CopyStays(v6, Step(v6, sys, events[0]), i, events[1..]);
    }
  }

  // A write-back is stale exactly when the part it does not set has been given another value
  // in memory between the handler's copying and its write-back.
  lemma StaleExactly(v6: Ipv4.V6Syntax, sys: System, i: nat, events: seq<Event>, io: bool)
    requires i < |sys.handlers| && CopyOf(sys.handlers[i]) == Some(sys.shared.cfg)
    requires i < |Run(v6, sys, events).handlers| && Run(v6, sys, events).handlers[i].Saved?
    ensures var end := Run(v6, sys, events);
            StaleWrite(end, Move(i, io)) <==>
            if end.handlers[i].change.SetBird? then end.shared.cfg.runtime != sys.shared.cfg.runtime
            else end.shared.cfg.bird != sys.shared.cfg.bird
  {
    hide Run;
    CopyStays(v6, sys, i, events);
  }

  // ------------------------------------------------------------- some order

  ghost predicate SomeOrder(origin: App, done: seq<Change>, cfg: App) {
    exists order: seq<Change> :: multiset(order) == multiset(done) && cfg == Serial(origin, order)
  }

  predicate ChangesBird(done: seq<Change>) {
    exists i | 0 <= i < |done| :: done[i].SetBird?
  }

  predicate ChangesRuntime(done: seq<Change>) {
    exists i | 0 <= i < |done| :: done[i].SetRuntime?
  }

  // Each part is the one some finished post has set, or the original if none has set it.
  predicate Explained(origin: App, done: seq<Change>, cfg: App) {
    && SameFixed(cfg, origin)
    && (if ChangesBird(done) then SetBird(cfg.bird) in done else cfg.bird == origin.bird)
    && (if ChangesRuntime(done) then SetRuntime(cfg.runtime) in done else cfg.runtime == origin.runtime)
  }

  lemma {:induction false} SerialExplained(origin: App, changes: seq<Change>)
    ensures Explained(origin, changes, Serial(origin, changes))
  {
    if changes != [] {
      var init, last := changes[..|changes| - 1], changes[|changes| - 1];
      SerialExplained(origin, init);
      assert changes == init + [last];
      assert ChangesBird(init) ==> ChangesBird(changes);
      assert ChangesRuntime(init) ==> ChangesRuntime(changes);
    }
  }

  lemma SameChanges(a: seq<Change>, b: seq<Change>)
    requires multiset(a) == multiset(b)
    ensures forall c :: c in a <==> c in b
    ensures ChangesBird(a) <==> ChangesBird(b)
    ensures ChangesRuntime(a) <==> ChangesRuntime(b)
  {
    forall c
      ensures c in a <==> c in b
    {
      assert c in a <==> c in multiset(a);
      assert c in b <==> c in multiset(b);
    }
    HasKinds(a);
    HasKinds(b);
  }

  lemma HasKinds(a: seq<Change>)
    ensures ChangesBird(a) <==> exists c :: c in a && c.SetBird?
    ensures ChangesRuntime(a) <==> exists c :: c in a && c.SetRuntime?
  {
  }

  // A change brought to the end.
  lemma LastOf(done: seq<Change>, c: Change) returns (order: seq<Change>)
    requires c in done
    ensures multiset(order + [c]) == multiset(done)
  {
    var i :| 0 <= i < |done| && done[i] == c;
    order := done[..i] + done[i + 1..];
    assert done == done[..i] + [c] + done[i + 1..];
  }

  // An order that ends with the given changes, if there are any of their kinds.
  lemma OrderFor(origin: App, done: seq<Change>, cfg: App) returns (order: seq<Change>)
    requires Explained(origin, done, cfg)
    ensures multiset(order) == multiset(done) && Serial(origin, order) == cfg
  {
    order := done;
    if ChangesBird(done) {
      var rest := LastOf(order, SetBird(cfg.bird));
      order := rest + [SetBird(cfg.bird)];
      SerialSnoc(origin, rest, SetBird(cfg.bird));
    }
    SameChanges(order, done);
    SerialExplained(origin, order);
    assert Serial(origin, order).bird == cfg.bird;
    if ChangesRuntime(done) {
      var c := SetRuntime(cfg.runtime);
      if ChangesBird(done) {
        order := TwoLast(origin, done, SetBird(cfg.bird), c);
      } else {
        var rest := LastOf(order, c);
        order := rest + [c];
        SerialSnoc(origin, rest, c);
      }
      SameChanges(order, done);
      SerialExplained(origin, order);
    }
  }

  lemma TwoLast(origin: App, done: seq<Change>, b: Change, r: Change) returns (order: seq<Change>)
    requires b in done && r in done && b.SetBird? && r.SetRuntime?
    ensures multiset(order) == multiset(done)
    ensures Serial(origin, order).bird == b.bird && Serial(origin, order).runtime == r.runtime
  {
    var rest := LastOf(done, r);
    SameChanges(rest + [r], done);
    assert b in rest;
    var rest' := LastOf(rest, b);
    order := rest' + [b] + [r];
    SerialSnoc(origin, rest' + [b], r);
    SerialSnoc(origin, rest', b);
    assert multiset(rest' + [b] + [r]) == multiset(rest' + [b]) + multiset{r} == multiset(rest) + multiset{r} ==
        multiset(rest + [r]);
  }

  lemma SomeOrderExactly(origin: App, done: seq<Change>, cfg: App)
    ensures SomeOrder(origin, done, cfg) <==> Explained(origin, done, cfg)
  {
    hide Explained;
    if order: seq<Change> :| multiset(order) == multiset(done) && cfg == Serial(origin, order) {
      SerialExplained(origin, order);
      ExplainedAlike(origin, order, done, cfg);
    }
    if Explained(origin, done, cfg) {
      var order := OrderFor(origin, done, cfg);
    }
  }

  lemma ExplainedAlike(origin: App, a: seq<Change>, b: seq<Change>, cfg: App)
    requires multiset(a) == multiset(b) && Explained(origin, a, cfg)
    ensures Explained(origin, b, cfg)
  {
    SameChanges(a, b);
  }

  // A part that stands in memory or in a copy is original or has been set.
  predicate PartsKnown(origin: App, done: seq<Change>, cfg: App) {
    && SameFixed(cfg, origin)
    && (cfg.bird == origin.bird || SetBird(cfg.bird) in done)
    && (cfg.runtime == origin.runtime || SetRuntime(cfg.runtime) in done)
  }

  predicate AllPartsKnown(origin: App, sys: System) {
    && PartsKnown(origin, sys.shared.done, sys.shared.cfg)
    && forall i | 0 <= i < |sys.handlers| ::
         match sys.handlers[i]
         case Copied(_, copy) => PartsKnown(origin, sys.shared.done, copy)
         case Ready(_, copy) => PartsKnown(origin, sys.shared.done, copy)
         case Saved(_, copy) => PartsKnown(origin, sys.shared.done, copy)
         case _ => true
  }

  lemma {:induction false} PartsStayKnown(v6: Ipv4.V6Syntax, origin: App, sys: System, events: seq<Event>)
    requires AllPartsKnown(origin, sys)
    ensures AllPartsKnown(origin, Run(v6, sys, events))
    decreases |events|
  {
    hide Bird.Generate, Normalized, BirdText;
    if events != [] {
      PartsStayKnown(v6, origin, Step(v6, sys, events[0]), events[1..]);
    }
  }

  // An update is lost.
  predicate BirdLost(origin: App, s: Shared) {
    ChangesBird(s.done) && s.cfg.bird == origin.bird && SetBird(origin.bird) !in s.done
  }

  predicate RuntimeLost(origin: App, s: Shared) {
    ChangesRuntime(s.done) && s.cfg.runtime == origin.runtime && SetRuntime(origin.runtime) !in s.done
  }

  // After any run of a server, memory is what some order of the finished posts would have
  // made it, except exactly when a part has its original value back although posts that
  // changed it have finished.
  lemma LostExactly(v6: Ipv4.V6Syntax, origin: App, events: seq<Event>)
    ensures var end := Run(v6, System(Fresh(origin), []), events).shared;
            SomeOrder(origin, end.done, end.cfg) <==> !BirdLost(origin, end) && !RuntimeLost(origin, end)
  {
    hide Run, SomeOrder;
    PartsStayKnown(v6, origin, System(Fresh(origin), []), events);
    var end := Run(v6, System(Fresh(origin), []), events).shared;
    SomeOrderExactly(origin, end.done, end.cfg);
    HasKinds(end.done);
  }

  // ------------------------------------------------------------- the BIRD file

  predicate FileIsWritten(v6: Ipv4.V6Syntax, s: Shared) {
    && s.birdFile == (if s.written == [] then None else Some(BirdText(v6, s.written[|s.written| - 1])))
    && forall i | 0 <= i < |s.written| :: IsPosted(v6, s.written[i])
  }

  // A BIRD part that passed the handler's checks, defaults filled in.
  predicate IsPosted(v6: Ipv4.V6Syntax, c: Bird.Config) {
    Bird.Generate(v6, c).Ok? && c.WithDefaults() == c
  }

  predicate PostsChecked(v6: Ipv4.V6Syntax, sys: System) {
    && FileIsWritten(v6, sys.shared)
    && forall i | 0 <= i < |sys.handlers| ::
         sys.handlers[i].Copied? && sys.handlers[i].post.BirdPost? ==> IsPosted(v6, sys.handlers[i].post.next)
  }

  lemma {:induction false} FileStaysWritten(v6: Ipv4.V6Syntax, sys: System, events: seq<Event>)
    requires PostsChecked(v6, sys)
    ensures PostsChecked(v6, Run(v6, sys, events))
    decreases |events|
  {
    hide Bird.Generate, Normalized, BirdText, Applied;
    if events != [] {
      FileStaysWritten(v6, Step(v6, sys, events[0]), events[1..]);
    }
  }

  lemma SameTextExactly(v6: Ipv4.V6Syntax, a: Bird.Config, b: Bird.Config)
    requires Bird.PlainV6(v6) && IsPosted(v6, a)
    ensures BirdText(v6, a) == BirdText(v6, b) <==> a == b.WithDefaults()
  {
    Bird.GenerateInjective(v6, a, b);
    Bird.GeneratedText(v6, a);
    hide Bird.Generate, Bird.PlainV6;
  }

  // After any run the BIRD file, once written, holds the text of the configuration in memory
  // exactly when the BIRD part in memory is the one written last.
  lemma BirdFileExactly(v6: Ipv4.V6Syntax, origin: App, events: seq<Event>)
    requires Bird.PlainV6(v6)
    ensures var end := Run(v6, System(Fresh(origin), []), events).shared;
            end.written != [] ==>
              (end.birdFile == Some(BirdText(v6, end.cfg.bird)) <==>
                 end.cfg.bird.WithDefaults() == end.written[|end.written| - 1])
  {
    hide Run, Bird.PlainV6, IsPosted, BirdText;
    FileStaysWritten(v6, System(Fresh(origin), []), events);
    var end := Run(v6, System(Fresh(origin), []), events).shared;
    if end.written != [] {
      SameTextExactly(v6, end.written[|end.written| - 1], end.cfg.bird);
    }
  }

  // One post is enough to part them: its text is written, and then saving app.yaml fails.
  lemma FailedSaveLeavesFile(v6: Ipv4.V6Syntax, s: Shared, next: Bird.Config)
    requires Bird.Generate(v6, next.WithDefaults()).Ok?
    ensures var end := Alone(v6, s, Received(BirdPost(next)), [true, true, false, true]);
            && end.handler == Answered(false)
            && end.shared.birdFile == Some(BirdText(v6, next.WithDefaults()))
            && end.shared.cfg == s.cfg && end.shared.disk == s.disk
  {
    hide Bird.Generate, BirdText;
    AloneFour(v6, s, Received(BirdPost(next)), true, false);
  }

  // ------------------------------------------------------------- one post

  // A BIRD post that is not interrupted succeeds exactly if a file can be generated and both
  // files can be written; then the BIRD part and nothing else is replaced, in memory and on
  // disk, and the BIRD file holds its text. If it fails only the BIRD file may have changed.
  lemma BirdPostExactly(v6: Ipv4.V6Syntax, s: Shared, payload: Bird.Config, writeOk: bool, saveOk: bool)
    ensures var end := Alone(v6, s, Received(BirdPost(payload)), [true, writeOk, saveOk, true]);
            var next := if payload.iface == "" then payload.(iface := "wg0") else payload;
            var generated := Bird.Generate(v6, next);
            && (end.handler == Answered(true) <==> generated.Ok? && writeOk && saveOk)
            && (end.handler == Answered(true) ==>
                  && end.shared.cfg == s.cfg.(bird := next) && end.shared.disk == Some(end.shared.cfg))
            && (end.handler != Answered(true) ==>
                  && end.handler == Answered(false)
                  && end.shared.cfg == s.cfg && end.shared.disk == s.disk)
            && end.shared.birdFile == if generated.Ok? && writeOk then Some(generated.text) else s.birdFile
  {
    hide Bird.Generate;
    AloneFour(v6, s, Received(BirdPost(payload)), writeOk, saveOk);
  }

  // A settings post succeeds exactly if each pinned route denotes an address and the file can
  // be written; then the runtime part and nothing else is replaced.
  lemma SettingsPostExactly(v6: Ipv4.V6Syntax, s: Shared, auto: bool, pin: bool, routes: seq<string>, saveOk: bool)
    ensures var end := Alone(v6, s, Received(SettingsPost(auto, pin, routes)), [true, true, saveOk, true]);
            && (end.handler == Answered(true) <==>
                  (forall i | 0 <= i < |routes| :: RouteAddr(v6, routes[i]).Some?) && saveOk)
            && (end.handler == Answered(true) ==>
                  && Normalized(v6, routes).Ok?
                  && end.shared.cfg == s.cfg.(runtime := Runtime(auto, pin, Normalized(v6, routes).value))
                  && end.shared.disk == Some(end.shared.cfg))
            && (end.handler != Answered(true) ==>
                  && end.handler == Answered(false)
                  && end.shared.cfg == s.cfg && end.shared.disk == s.disk)
            && end.shared.birdFile == s.birdFile
  {
    hide Normalized, RouteAddr;
    AloneFour(v6, s, Received(SettingsPost(auto, pin, routes)), true, saveOk);
    NormalizedExactly(v6, routes);
  }

  // ------------------------------------------------------------- two posts that overlap

  // The change a handler that has its copy is going to make, if it passes.
  function Changing(v6: Ipv4.V6Syntax, h: Handler): Option<Change> {
    match h
    case Copied(BirdPost(next), _) => Some(SetBird(next))
    case Copied(SettingsPost(auto, pin, routes), _) =>
      (match Normalized(v6, routes)
       case Ok(pinned) => Some(SetRuntime(Runtime(auto, pin, pinned)))
       case Err(_) => None)
    case _ => None
  }

  function WriteBack(v6: Ipv4.V6Syntax, sys: System, i: nat): System {
    Run(v6, sys, [Move(i, true), Move(i, true), Move(i, true)])
  }

  lemma RunMove(v6: Ipv4.V6Syntax, sys: System, e: Event, rest: seq<Event>)
    ensures Run(v6, sys, [e] + rest) == Run(v6, Step(v6, sys, e), rest)
  {
    assert ([e] + rest)[1..] == rest;
  }

  function FileAfter(v6: Ipv4.V6Syntax, before: Option<string>, c: Change): Option<string> {
    if c.SetBird? then Some(BirdText(v6, c.bird)) else before
  }

  // Writing back puts the handler's own copy, changed, in memory and on disk, whatever has
  // been written there since the copy was taken.
  lemma WriteBackEffect(v6: Ipv4.V6Syntax, sys: System, i: nat)
    requires i < |sys.handlers| && Changing(v6, sys.handlers[i]).Some?
    ensures var end, c := WriteBack(v6, sys, i), Changing(v6, sys.handlers[i]).value;
            && end.handlers == sys.handlers[i := Answered(true)]
            && end.shared.cfg == Applied(c, sys.handlers[i].copy)
            && end.shared.disk == Some(end.shared.cfg)
            && end.shared.birdFile == FileAfter(v6, sys.shared.birdFile, c)
            && end.shared.done == sys.shared.done + [c]
  {
    hide Normalized, BirdText, Run;
    var m := Move(i, true);
    var s1 := Step(v6, sys, m);
    var s2 := Step(v6, s1, m);
    RunMove(v6, sys, m, [m, m]);
    RunMove(v6, s1, m, [m]);
    RunMove(v6, s2, m, []);
    RunNothing(v6, Step(v6, s2, m));
    assert [m] + [m, m] == [m, m, m] && [m] + [m] == [m, m] && [m] + [] == [m];
  }

  lemma RunNothing(v6: Ipv4.V6Syntax, sys: System)
    ensures Run(v6, sys, []) == sys
  {
  }

  // Of two handlers that both have their copies, both report success. Memory and app.yaml
  // are the second one's copy with its change, so of a change of the other kind nothing is
  // left in them. The BIRD file is written apart from them: it keeps the text of a BIRD
  // change that is lost in both.
  lemma OverlappingPosts(v6: Ipv4.V6Syntax, sys: System, i: nat, j: nat)
    requires i < |sys.handlers| && j < |sys.handlers| && i != j
    requires Changing(v6, sys.handlers[i]).Some? && Changing(v6, sys.handlers[j]).Some?
    ensures var c, d := Changing(v6, sys.handlers[i]).value, Changing(v6, sys.handlers[j]).value;
            var end := WriteBack(v6, WriteBack(v6, sys, i), j);
            && end.handlers == sys.handlers[i := Answered(true)][j := Answered(true)]
            && end.shared.cfg == Applied(d, sys.handlers[j].copy)
            && end.shared.disk == Some(end.shared.cfg)
            && end.shared.birdFile == FileAfter(v6, FileAfter(v6, sys.shared.birdFile, c), d)
            && end.shared.done == sys.shared.done + [c] + [d]
            && (c.SetBird? && d.SetRuntime? ==>
                  end.shared.cfg.bird == sys.handlers[j].copy.bird && end.shared.birdFile == Some(BirdText(v6, c.bird)))
            && (c.SetRuntime? && d.SetBird? ==> end.shared.cfg.runtime == sys.handlers[j].copy.runtime)
  {
    hide WriteBack, Changing, BirdText;
    WriteBackEffect(v6, sys, i);
    WriteBackEffect(v6, WriteBack(v6, sys, i), j);
  }

  // Both posts arrive and both copy before either writes back.
  const OVERLAP: seq<Event> := [Move(0, true), Move(1, true)]

  // From a fresh server: a BIRD post and a settings post that overlap, the first to write
  // back first. Both report success, the BIRD change is lost, no order of the two explains
  // memory, and the BIRD file disagrees with it.
  lemma LostUpdateReached(v6: Ipv4.V6Syntax, origin: App, next: Bird.Config, auto: bool, pin: bool, routes: seq<string>)
    requires Bird.Generate(v6, next.WithDefaults()).Ok? && Normalized(v6, routes).Ok?
    requires next.WithDefaults() != origin.bird
    ensures var start := System(Fresh(origin), [Received(BirdPost(next)), Received(SettingsPost(auto, pin, routes))]);
            var end := WriteBack(v6, WriteBack(v6, Run(v6, start, OVERLAP), 0), 1);
            && end.handlers == [Answered(true), Answered(true)]
            && end.shared.cfg == origin.(runtime := Runtime(auto, pin, Normalized(v6, routes).value))
            && end.shared.disk == Some(end.shared.cfg)
            && end.shared.birdFile == Some(BirdText(v6, next.WithDefaults()))
            && BirdLost(origin, end.shared) && !SomeOrder(origin, end.shared.done, end.shared.cfg)
  {
    hide Bird.Generate, Normalized, BirdText, WriteBack, SomeOrder;
    var start := System(Fresh(origin), [Received(BirdPost(next)), Received(SettingsPost(auto, pin, routes))]);
    var copied := BothCopy(v6, start);
    OverlappingPosts(v6, copied, 0, 1);
    var end := WriteBack(v6, WriteBack(v6, copied, 0), 1).shared;
    var c := SetBird(next.WithDefaults());
    assert end.done[0] == c;
    SomeOrderExactly(origin, end.done, end.cfg);
  }

  lemma BothCopy(v6: Ipv4.V6Syntax, start: System) returns (copied: System)
    requires |start.handlers| == 2
    ensures copied == Run(v6, start, OVERLAP) == Step(v6, Step(v6, start, Move(0, true)), Move(1, true))
  {
    hide Step;
    var m0, m1 := Move(0, true), Move(1, true);
    assert OVERLAP == [m0] + [m1] && [m1] + [] == [m1];
    RunMove(v6, start, m0, [m1]);
    RunMove(v6, Step(v6, start, m0), m1, []);
    RunNothing(v6, Step(v6, Step(v6, start, m0), m1));
    copied := Run(v6, start, OVERLAP);
  }

  lemma BirdAlone(v6: Ipv4.V6Syntax, s: Shared, next: Bird.Config)
    requires Bird.Generate(v6, next.WithDefaults()).Ok?
    ensures var end := Alone(v6, s, Received(BirdPost(next)), [true, true, true, true]);
            && end.handler == Answered(true) && end.shared.cfg == s.cfg.(bird := next.WithDefaults())
            && end.shared.disk == Some(end.shared.cfg)
  {
    hide Bird.Generate, BirdText, Alone;
    AloneFour(v6, s, Received(BirdPost(next)), true, true);
  }

  lemma SettingsAlone(v6: Ipv4.V6Syntax, s: Shared, auto: bool, pin: bool, routes: seq<string>)
    requires Normalized(v6, routes).Ok?
    ensures var end := Alone(v6, s, Received(SettingsPost(auto, pin, routes)), [true, true, true, true]);
            && end.handler == Answered(true)
            && end.shared.cfg == s.cfg.(runtime := Runtime(auto, pin, Normalized(v6, routes).value))
            && end.shared.disk == Some(end.shared.cfg)
  {
    hide Normalized, Alone;
    AloneFour(v6, s, Received(SettingsPost(auto, pin, routes)), true, true);
  }

  // One after the other, both changes are kept.
  lemma SequentialUpdatesKept(
      v6: Ipv4.V6Syntax, s: Shared, next: Bird.Config, auto: bool, pin: bool, routes: seq<string>)
    requires Bird.Generate(v6, next.WithDefaults()).Ok? && Normalized(v6, routes).Ok?
    ensures var first := Alone(v6, s, Received(BirdPost(next)), [true, true, true, true]);
            var second := Alone(v6, first.shared, Received(SettingsPost(auto, pin, routes)), [true, true, true, true]);
            && first.handler == Answered(true) && second.handler == Answered(true)
            && second.shared.cfg ==
               s.cfg.(bird := next.WithDefaults(), runtime := Runtime(auto, pin, Normalized(v6, routes).value))
            && second.shared.disk == Some(second.shared.cfg)
  {
    hide Bird.Generate, Normalized, Alone;
    BirdAlone(v6, s, next);
    SettingsAlone(v6, Alone(v6, s, Received(BirdPost(next)), [true, true, true, true]).shared, auto, pin, routes);
  }
}
