/** The application and handler tables of src/vsomeip_bridge.cpp, under sequential calls of the C ABI. A handle
    is the application's address, which may be reused once the application is destroyed. vsomeip's own table
    of registered message handlers is a set per application. */
module Handlers {

  type Handle = nat

  const NULL: Handle := 0

  datatype HandlerKey = HandlerKey(svc: nat, inst: nat, methodId: nat)

  /** The tables as values: apps holds what each live application has registered with vsomeip, handlers is
      g_handlers, and retired what each destroyed application still had registered when it stopped. */
  datatype Tables = Tables(apps: map<Handle, set<HandlerKey>>, handlers: map<Handle, set<HandlerKey>>,
                           retired: seq<set<HandlerKey>>)

  /** One call. Create carries the address the allocator returned and whether starting succeeded;
      Register stands for subscribe and register_message_handler alike. */
  datatype ApiCall =
    | Create(address: Handle, started: bool)
    | Destroy(handle: Handle)
    | Register(handle: Handle, key: HandlerKey)
    | Unregister(handle: Handle, key: HandlerKey)

  function Tracked(t: Tables, h: Handle): set<HandlerKey> {
    if h in t.handlers then t.handlers[h] else {}
  }

  /** An allocator never returns null or the address of a live object. */
  predicate Possible(t: Tables, c: ApiCall) {
    c.Create? ==> c.address != NULL && c.address !in t.apps
  }

  function Do(t: Tables, c: ApiCall): Tables {
    match c
    case Create(a, started) => if started then t.(apps := t.apps[a := {}]) else t
    case Destroy(h) =>
      if h == NULL || h !in t.apps then t
      else Tables(t.apps - {h}, t.handlers - {h}, t.retired + [t.apps[h] - Tracked(t, h)])
    case Register(h, k) =>
      if h !in t.apps then t
      else t.(apps := t.apps[h := t.apps[h] + {k}], handlers := t.handlers[h := Tracked(t, h) + {k}])
    case Unregister(h, k) =>
      if h !in t.apps then t else t.(apps := t.apps[h := t.apps[h] - {k}])
  }

  function Run(calls: seq<ApiCall>): Tables {
    if calls == [] then Tables(map[], map[], []) else Do(Run(calls[..|calls| - 1]), calls[|calls| - 1])
  }

  ghost predicate PossibleRun(calls: seq<ApiCall>) {
    calls == [] ||
    (PossibleRun(calls[..|calls| - 1]) && Possible(Run(calls[..|calls| - 1]), calls[|calls| - 1]))
  }

  /** Tracked handles are live applications, no application has a handler that is not tracked, and no
      destroyed application kept one. */
  ghost predicate Coupled(t: Tables) {
    && NULL !in t.apps
    && t.handlers.Keys <= t.apps.Keys
    && (forall h :: h in t.apps ==> t.apps[h] <= Tracked(t, h))
    && (forall i :: 0 <= i < |t.retired| ==> t.retired[i] == {})
  }

  lemma {:induction false} DoKeepsCoupling(t: Tables, c: ApiCall)
    requires Coupled(t) && Possible(t, c)
    ensures Coupled(Do(t, c))
  {
    match c
    case Destroy(h) =>
      if h in t.apps {
        assert t.apps[h] - Tracked(t, h) == {};
      }
    case _ =>
  }

  /** The coupling holds after every run, with addresses reused at will. */
  lemma {:induction false} RunsAreCoupled(calls: seq<ApiCall>)
    requires PossibleRun(calls)
    ensures Coupled(Run(calls))
  {
    if calls != [] {
      RunsAreCoupled(calls[..|calls| - 1]);
      DoKeepsCoupling(Run(calls[..|calls| - 1]), calls[|calls| - 1]);
    }
  }

  /** The calls since the latest successful creation of an application at h that is still live. */
  function SinceCreate(calls: seq<ApiCall>, h: Handle): (bool, seq<ApiCall>) {
    if calls == [] then (false, [])
    else
      var (live, since) := SinceCreate(calls[..|calls| - 1], h);
      var c := calls[|calls| - 1];
      if c.Create? && c.started && c.address == h then (true, [])
      else if c.Destroy? && c.handle == h then (false, [])
      else (live, since + [c])
  }

  /** Every key those calls registered at h, and the keys registered last and not unregistered after. */
  function EverRegistered(calls: seq<ApiCall>, h: Handle): set<HandlerKey> {
    if calls == [] then {}
    else
      var c := calls[|calls| - 1];
      EverRegistered(calls[..|calls| - 1], h) + if c.Register? && c.handle == h then {c.key} else {}
  }

  function StillRegistered(calls: seq<ApiCall>, h: Handle): set<HandlerKey> {
    if calls == [] then {}
    else
      var c, before := calls[|calls| - 1], StillRegistered(calls[..|calls| - 1], h);
      if c.Register? && c.handle == h then before + {c.key}
      else if c.Unregister? && c.handle == h then before - {c.key}
      else before
  }

  lemma {:induction false} RegisteredSnoc(calls: seq<ApiCall>, c: ApiCall, h: Handle)
    ensures EverRegistered(calls + [c], h) ==
            EverRegistered(calls, h) + if c.Register? && c.handle == h then {c.key} else {}
    ensures StillRegistered(calls + [c], h) ==
            var before := StillRegistered(calls, h);
            if c.Register? && c.handle == h then before + {c.key}
            else if c.Unregister? && c.handle == h then before - {c.key}
            else before
  {
    assert (calls + [c])[..|calls|] == calls;
  }

  /** After any run the tables say exactly this: an address is live when its last creation was not followed by
      a destroy; its tracked set is what was registered since then; its handlers are those not unregistered.
      Nothing is inherited from an earlier application at the same address. */
  lemma {:induction false} TablesAreHistory(calls: seq<ApiCall>, h: Handle)
    requires PossibleRun(calls)
    ensures var (live, since) := SinceCreate(calls, h);
      && (h in Run(calls).apps <==> live)
      && (live ==> Run(calls).apps[h] == StillRegistered(since, h))
      && (live ==> Tracked(Run(calls), h) == EverRegistered(since, h))
      && (!live ==> Tracked(Run(calls), h) == {})
  {
    if calls != [] {
      var before, c := calls[..|calls| - 1], calls[|calls| - 1];
      TablesAreHistory(before, h);
      RunsAreCoupled(before);
      RegisteredSnoc(SinceCreate(before, h).1, c, h);
    }
  }

  // ---- the tables in place ----

  /** A vsomeip application's handler table. */
  class Application {
    var registered: set<HandlerKey>

    constructor ()
      ensures registered == {}
    {
      registered := {};
    }

    method RegisterMessageHandler(key: HandlerKey)
      modifies this
      ensures registered == old(registered) + {key}
    {
      registered := registered + {key};
    }

    method UnregisterMessageHandler(key: HandlerKey)
      modifies this
      ensures registered == old(registered) - {key}
    {
      registered := registered - {key};
    }
  }

  class Bridge {
    var apps: map<Handle, Application>
    var handlers: map<Handle, set<HandlerKey>>
    ghost var retired: seq<set<HandlerKey>>

    ghost function Apps(): set<Application>
      reads this
    {
      set h | h in apps :: apps[h]
    }

    ghost function Model(): Tables
      reads this, Apps()
    {
      Tables(map h | h in apps :: apps[h].registered, handlers, retired)
    }

    ghost predicate Valid()
      reads this, Apps()
    {
      && (forall g, h :: g in apps && h in apps && g != h ==> apps[g] != apps[h])
      && Coupled(Model())
    }

    constructor ()
      ensures Valid() && Model() == Tables(map[], map[], []) && Apps() == {}
    {
      apps, handlers, retired := map[], map[], [];
    }

    method AppCreate(address: Handle, started: bool) returns (handle: Handle)
      requires Valid() && Possible(Model(), Create(address, started))
      modifies this
      ensures Valid() && fresh(Apps() - old(Apps()))
      ensures Model() == Do(old(Model()), Create(address, started))
      ensures handle == if started then address else NULL
    {
      DoKeepsCoupling(Model(), Create(address, started));
      if !started {
        return NULL;
      }
      ghost var before := Model().apps;
      var app := new Application();
      apps := apps[address := app];
      assert Model().apps == before[address := {}];
      return address;
    }

    /** Unregisters every tracked handler before the application stops. */
    method AppDestroy(handle: Handle)
      requires Valid()
      modifies this, Apps()
      ensures Valid() && Apps() <= old(Apps())
      ensures Model() == Do(old(Model()), Destroy(handle))
      ensures handle in old(apps) ==> old(apps[handle]).registered == {}
    {
      ghost var t := Model();
      DoKeepsCoupling(t, Destroy(handle));
      if handle == NULL || handle !in apps {
        return;
      }
      var app := apps[handle];
      var tracked := if handle in handlers then handlers[handle] else {};
      apps := apps - {handle};
      handlers := handlers - {handle};
      UnregisterAll(app, tracked);
      retired := retired + [app.registered];
      assert Model().apps == t.apps - {handle};
    }

    method UnregisterAll(app: Application, keys: set<HandlerKey>)
      modifies app
      ensures app.registered == old(app.registered) - keys
    {
      var todo := keys;
      while todo != {}
        invariant todo <= keys && app.registered == old(app.registered) - (keys - todo)
        decreases todo
      {
        var k :| k in todo;
        app.UnregisterMessageHandler(k);
        todo := todo - {k};
      }
    }

    method RegisterMessageHandler(handle: Handle, key: HandlerKey)
      requires Valid()
      modifies this, Apps()
      ensures Valid() && Apps() == old(Apps())
      ensures Model() == Do(old(Model()), Register(handle, key))
    {
      ghost var t := Model();
      DoKeepsCoupling(t, Register(handle, key));
      if handle !in apps {
        return;
      }
      apps[handle].RegisterMessageHandler(key);
      TrackHandler(handle, key);
      assert Model().apps == t.apps[handle := t.apps[handle] + {key}];
    }

    method TrackHandler(handle: Handle, key: HandlerKey)
      modifies this`handlers
      ensures var before := if handle in old(handlers) then old(handlers)[handle] else {};
        handlers == old(handlers)[handle := before + {key}]
    {
      var tracked := if handle in handlers then handlers[handle] else {};
      handlers := handlers[handle := tracked + {key}];
    }

    /** The key stays tracked. */
    method UnregisterMessageHandler(handle: Handle, key: HandlerKey)
      requires Valid()
      modifies Apps()
      ensures Valid() && Apps() == old(Apps())
      ensures Model() == Do(old(Model()), Unregister(handle, key))
    {
      ghost var t := Model();
      DoKeepsCoupling(t, Unregister(handle, key));
      if handle !in apps {
        return;
      }
      apps[handle].UnregisterMessageHandler(key);
      assert Model().apps == t.apps[handle := t.apps[handle] - {key}];
    }
  }
}
