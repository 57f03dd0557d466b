/** `shared_context` and `context_manager`.

    All state they touch is one `World` value, threaded through every
    operation, and the calling thread is an explicit parameter:
    - `mainThread` is the single static main-thread id; it is unset until
      the first `set_var` or `clear_var` on any shared context, whose
      caller becomes the main thread for good;
    - `overlays` is the `static thread_local` variable map: one map per
      thread, common to every shared context;
    - `stores` holds each live shared context's own variables and
      formatters, by context id;
    - `registry` is `context_manager`'s map from name to context, and
      `nextId` the next fresh context id. */
module Shared {
  import opened Wrappers
  import opened Text
  import opened Values
  import opened Engine
  import opened Contexts

  type ThreadId = nat
  type ContextId = nat

  datatype SharedStore = SharedStore(vars: map<string, string>, formatters: Formatters)

  const EmptyStore := SharedStore(map[], map[])

  datatype World = World(
    mainThread: Option<ThreadId>,
    overlays: map<ThreadId, map<string, string>>,
    stores: map<ContextId, SharedStore>,
    registry: map<string, ContextId>,
    nextId: ContextId)

  /** No thread has written, no context exists. */
  const EmptyWorld := World(None, map[], map[], map[], 0)

  /** The calling thread's `thread_variables_`. */
  function Overlay(w: World, t: ThreadId): map<string, string> {
    if t in w.overlays then w.overlays[t] else map[]
  }

  /** What the operations keep true: registered names name live contexts,
      distinct names name distinct contexts, ids below `nextId` are the
      only ones used, and the main thread never has an overlay of its own
      (before a main thread exists nobody has written at all). */
  predicate Valid(w: World) {
    && (forall n :: n in w.registry ==> w.registry[n] in w.stores)
    && (forall n, m :: n in w.registry && m in w.registry && n != m ==> w.registry[n] != w.registry[m])
    && (forall id :: id in w.stores ==> id < w.nextId)
    && (w.mainThread.None? ==> forall t :: t in w.overlays ==> w.overlays[t] == map[])
    && (w.mainThread.Some? ==> Overlay(w, w.mainThread.value) == map[])
  }

  lemma EmptyWorldValid()
    ensures Valid(EmptyWorld)
  {
  }

  // ---------------------------------------------------------------------
  // Variables
  // ---------------------------------------------------------------------

  /** `is_main_thread()`: the first caller fixes the main-thread id. */
  function FixMain(w: World, t: ThreadId): (r: World)
    ensures r.mainThread.Some?
    ensures w.mainThread.Some? ==> r == w
    ensures w.mainThread.None? ==> r.mainThread == Some(t)
  {
    w.(mainThread := Some(w.mainThread.GetOr(t)))
  }

  /** Routes a change of one variable map: the calling context's shared map
      on the main thread, the calling thread's overlay on any other. */
  function Route(w: World, id: ContextId, t: ThreadId, change: map<string, string> -> map<string, string>): World
    requires id in w.stores
  {
    var w1 := FixMain(w, t);
    if w1.mainThread == Some(t) then
      w1.(stores := w1.stores[id := w1.stores[id].(vars := change(w1.stores[id].vars))])
    else
      w1.(overlays := w1.overlays[t := change(Overlay(w1, t))])
  }

  /** `shared_context::set_var`. */
  function SharedSetVar(w: World, id: ContextId, t: ThreadId, name: string, value: string): (r: World)
    requires id in w.stores
    ensures Valid(w) ==> Valid(r)
    ensures r.registry == w.registry && r.nextId == w.nextId && r.stores.Keys == w.stores.Keys
    ensures Valid(w) ==>
              forall i, u, n :: i in w.stores && n != name ==>
                i in r.stores && SharedFindVar(r, i, u, n) == SharedFindVar(w, i, u, n)
  {
    Route(w, id, t, vars => vars[name := value])
  }

  /** `shared_context::clear_var`. */
  function SharedClearVar(w: World, id: ContextId, t: ThreadId, name: string): (r: World)
    requires id in w.stores
    ensures Valid(w) ==> Valid(r)
    ensures r.registry == w.registry && r.nextId == w.nextId && r.stores.Keys == w.stores.Keys
    ensures Valid(w) ==>
              forall i, u, n :: i in w.stores && n != name ==>
                i in r.stores && SharedFindVar(r, i, u, n) == SharedFindVar(w, i, u, n)
  {
    Route(w, id, t, (vars: map<string, string>) => vars - {name})
  }

  /** `shared_context::has_var`: the caller's overlay, then the shared map. */
  predicate SharedHasVar(w: World, id: ContextId, t: ThreadId, name: string)
    requires id in w.stores
  {
    name in Overlay(w, t) || name in w.stores[id].vars
  }

  /** `shared_context::get_var`: the caller's overlay entry, else the
      shared entry, else the empty string. */
  function SharedGetVar(w: World, id: ContextId, t: ThreadId, name: string): string
    requires id in w.stores
  {
    if name in Overlay(w, t) then Overlay(w, t)[name]
    else if name in w.stores[id].vars then w.stores[id].vars[name]
    else []
  }

  /** `shared_context::find_var`, the single-lookup version the template
      engine uses; it agrees with `has_var` followed by `get_var`. */
  function SharedFindVar(w: World, id: ContextId, t: ThreadId, name: string): (r: Option<string>)
    requires id in w.stores
    ensures r.Some? <==> SharedHasVar(w, id, t, name)
    ensures r.Some? ==> r.value == SharedGetVar(w, id, t, name)
  {
    var overlay := Overlay(w, t);
    if name in overlay then Some(overlay[name])
    else
      var vars := w.stores[id].vars;
      if name in vars then Some(vars[name]) else None
  }

  /** The `set_var` template for non-string values: converted with the
      context's formatters first. */
  function SharedSetVarValue(p: Platform, w: World, id: ContextId, t: ThreadId, name: string, v: Value): (r: World)
    requires id in w.stores
    ensures Valid(w) ==> Valid(r)
    ensures Valid(w) ==>
              id in r.stores && SharedFindVar(r, id, t, name) == Some(ToText(p, w.stores[id].formatters, v))
    ensures r.registry == w.registry && r.nextId == w.nextId && r.stores.Keys == w.stores.Keys
    ensures Valid(w) ==>
              forall i, u, n :: i in w.stores && n != name ==>
                i in r.stores && SharedFindVar(r, i, u, n) == SharedFindVar(w, i, u, n)
    ensures w.mainThread.Some? && w.mainThread.value != t ==> r.stores == w.stores
    ensures Valid(w) && w.mainThread.Some? && w.mainThread.value != t ==>
              forall i, u, n :: i in w.stores && u != t ==> SharedFindVar(r, i, u, n) == SharedFindVar(w, i, u, n)
  {
    SharedSetVar(w, id, t, name, ToText(p, w.stores[id].formatters, v))
  }

  // ---------------------------------------------------------------------
  // Formatters (per context, not per thread) and formatting
  // ---------------------------------------------------------------------

  predicate SharedHasFormatter(w: World, id: ContextId, tag: TypeTag)
    requires id in w.stores
  {
    tag in w.stores[id].formatters
  }

  function SharedSetFormatter(w: World, id: ContextId, tag: TypeTag, f: Value -> string): (r: World)
    requires id in w.stores
    ensures Valid(w) ==> Valid(r)
    ensures id in r.stores && SharedHasFormatter(r, id, tag) && r.stores[id].formatters[tag] == f
    ensures forall t, n :: SharedFindVar(r, id, t, n) == SharedFindVar(w, id, t, n)
    ensures r.stores.Keys == w.stores.Keys
    ensures forall i :: i in w.stores && i != id ==> r.stores[i] == w.stores[i]
    ensures r.stores[id].vars == w.stores[id].vars
    ensures r.stores[id].formatters - {tag} == w.stores[id].formatters - {tag}
    ensures r.registry == w.registry && r.mainThread == w.mainThread
    ensures r.overlays == w.overlays && r.nextId == w.nextId
  {
    w.(stores := w.stores[id := w.stores[id].(formatters := w.stores[id].formatters[tag := f])])
  }

  function SharedClearFormatter(w: World, id: ContextId, tag: TypeTag): (r: World)
    requires id in w.stores
    ensures Valid(w) ==> Valid(r)
    ensures id in r.stores && !SharedHasFormatter(r, id, tag)
    ensures forall t, n :: SharedFindVar(r, id, t, n) == SharedFindVar(w, id, t, n)
    ensures r.stores.Keys == w.stores.Keys
    ensures forall i :: i in w.stores && i != id ==> r.stores[i] == w.stores[i]
    ensures r.stores[id].vars == w.stores[id].vars
    ensures r.stores[id].formatters - {tag} == w.stores[id].formatters - {tag}
    ensures r.registry == w.registry && r.mainThread == w.mainThread
    ensures r.overlays == w.overlays && r.nextId == w.nextId
  {
    w.(stores := w.stores[id := w.stores[id].(formatters := w.stores[id].formatters - {tag})])
  }

  function SharedLookup(w: World, id: ContextId, t: ThreadId): string -> Option<string>
    requires id in w.stores
  {
    name => SharedFindVar(w, id, t, name)
  }

  /** `shared_context::format` called on thread `t`. Formatting reads the
      state and never changes it (in particular it does not fix the main
      thread). */
  function SharedFormat(p: Platform, w: World, id: ContextId, t: ThreadId, template: string, vs: seq<Value>): string
    requires id in w.stores
    requires forall i :: 0 <= i < |vs| ==> ValidValue(vs[i])
  {
    FormatImpl(p, SharedLookup(w, id, t), template, BindArgs(p, w.stores[id].formatters, vs))
  }

  // ---------------------------------------------------------------------
  // Contexts and the registry
  // ---------------------------------------------------------------------

  /** `create_shared_context()`: a fresh, empty context. */
  function CreateSharedContext(w: World): (r: (World, ContextId))
    ensures r.1 in r.0.stores && r.0.stores[r.1] == EmptyStore && r.0.registry == w.registry
    ensures Valid(w) ==> r.1 !in w.stores && Valid(r.0)
    ensures Valid(w) ==> forall id :: id in w.stores ==> id in r.0.stores && r.0.stores[id] == w.stores[id]
    ensures r.0.mainThread == w.mainThread && r.0.overlays == w.overlays
  {
    (w.(stores := w.stores[w.nextId := EmptyStore], nextId := w.nextId + 1), w.nextId)
  }

  /** `context_manager::get_context(name)`: the registered context, or a
      fresh one registered under `name`. */
  function GetContext(w: World, name: string): (r: (World, ContextId))
    requires Valid(w)
    ensures Valid(r.0) && r.1 in r.0.stores && name in r.0.registry && r.0.registry[name] == r.1
    ensures name in w.registry ==> r == (w, w.registry[name])
    ensures name !in w.registry ==> r.1 !in w.stores && r.0.stores[r.1] == EmptyStore
    ensures forall id :: id in w.stores ==> id in r.0.stores && r.0.stores[id] == w.stores[id]
    ensures forall n :: n != name ==> (n in r.0.registry <==> n in w.registry)
    ensures forall n :: n != name && n in w.registry ==> r.0.registry[n] == w.registry[n]
    ensures r.0.mainThread == w.mainThread && r.0.overlays == w.overlays
  {
    if name in w.registry then (w, w.registry[name])
    else
      var (w1, id) := CreateSharedContext(w);
      (w1.(registry := w1.registry[name := id]), id)
  }

  /** `context_manager::remove_context(name)`: the name is forgotten; the
      context itself lives on for whoever still holds it. */
  function RemoveContext(w: World, name: string): (r: World)
    ensures Valid(w) ==> Valid(r)
    ensures name !in r.registry && r.stores == w.stores
    ensures forall n :: n != name ==> (n in r.registry <==> n in w.registry)
    ensures forall n :: n != name && n in w.registry ==> r.registry[n] == w.registry[n]
    ensures r.mainThread == w.mainThread && r.overlays == w.overlays && r.nextId == w.nextId
  {
    w.(registry := w.registry - {name})
  }

  /** `context_manager::clear_all_contexts()`. */
  function ClearAllContexts(w: World): (r: World)
    ensures Valid(w) ==> Valid(r)
    ensures r.registry == map[] && r.stores == w.stores
    ensures r.mainThread == w.mainThread && r.overlays == w.overlays && r.nextId == w.nextId
  {
    w.(registry := map[])
  }

  // ---------------------------------------------------------------------
  // Routing of variables between threads and contexts
  // ---------------------------------------------------------------------

  /** The first `set_var` or `clear_var` on any shared context fixes the
      main thread to its caller, and nothing changes it afterwards: no
      later variable write, formatter change or registry operation. */
  lemma MainThreadFixedOnce(w: World, id: ContextId, t: ThreadId, name: string, value: string,
                            tag: TypeTag, f: Value -> string, cname: string)
    requires id in w.stores
    ensures SharedSetVar(w, id, t, name, value).mainThread == Some(w.mainThread.GetOr(t))
    ensures SharedClearVar(w, id, t, name).mainThread == Some(w.mainThread.GetOr(t))
    ensures SharedSetFormatter(w, id, tag, f).mainThread == w.mainThread
    ensures SharedClearFormatter(w, id, tag).mainThread == w.mainThread
    ensures CreateSharedContext(w).0.mainThread == w.mainThread
    ensures Valid(w) ==> GetContext(w, cname).0.mainThread == w.mainThread
    ensures RemoveContext(w, cname).mainThread == w.mainThread
    ensures ClearAllContexts(w).mainThread == w.mainThread
  {
  }

  /** Whichever thread writes, it reads its own write back. */
  lemma SetVarReadBack(w: World, id: ContextId, t: ThreadId, name: string, value: string)
    requires Valid(w) && id in w.stores
    ensures var r := SharedSetVar(w, id, t, name, value);
            id in r.stores && SharedFindVar(r, id, t, name) == Some(value)
  {
  }

  /** A write from the main thread (or from the first writer, which becomes
      the main thread) goes to the context's shared map: every thread
      without an overlay entry of that name sees it, and other contexts are
      untouched. */
  lemma MainWriteIsShared(w: World, id: ContextId, t: ThreadId, name: string, value: string)
    requires Valid(w) && id in w.stores && w.mainThread.GetOr(t) == t
    ensures var r := SharedSetVar(w, id, t, name, value);
            && r.overlays == w.overlays
            && (forall u :: name !in Overlay(w, u) ==> SharedFindVar(r, id, u, name) == Some(value))
            && (forall u :: name in Overlay(w, u) ==> SharedFindVar(r, id, u, name) == SharedFindVar(w, id, u, name))
            && (forall id2, u, n :: id2 in w.stores && id2 != id ==>
                  SharedFindVar(r, id2, u, n) == SharedFindVar(w, id2, u, n))
  {
  }

  /** A write from any other thread goes to that thread's overlay only: no
      other thread sees it, in any context. */
  lemma WorkerWriteIsPrivate(w: World, id: ContextId, t: ThreadId, name: string, value: string)
    requires Valid(w) && id in w.stores && w.mainThread.Some? && w.mainThread.value != t
    ensures var r := SharedSetVar(w, id, t, name, value);
            && r.stores == w.stores
            && (forall id2, u, n :: id2 in w.stores && u != t ==>
                  SharedFindVar(r, id2, u, n) == SharedFindVar(w, id2, u, n))
  {
  }

  /** The overlay belongs to the thread, not to the context: a worker's
      write through one shared context shows through every shared context
      on that thread. */
  lemma WorkerWriteCrossesContexts(w: World, id: ContextId, t: ThreadId, name: string, value: string)
    requires Valid(w) && id in w.stores && w.mainThread.Some? && w.mainThread.value != t
    ensures var r := SharedSetVar(w, id, t, name, value);
            forall id2 :: id2 in w.stores ==> id2 in r.stores && SharedFindVar(r, id2, t, name) == Some(value)
  {
  }

  /** A worker's `clear_var` only drops its own overlay entry, so the shared
      value of that name shows through again: no shared map changes, and no
      other thread sees any difference. */
  lemma WorkerClearUncoversShared(w: World, id: ContextId, t: ThreadId, name: string)
    requires Valid(w) && id in w.stores && w.mainThread.Some? && w.mainThread.value != t
    ensures var r := SharedClearVar(w, id, t, name);
            && id in r.stores
            && SharedFindVar(r, id, t, name)
               == (if name in w.stores[id].vars then Some(w.stores[id].vars[name]) else None)
            && r.stores == w.stores
            && (forall i, u, n :: i in w.stores && u != t ==>
                  SharedFindVar(r, i, u, n) == SharedFindVar(w, i, u, n))
  {
  }

  /** The main thread's `clear_var` removes the shared entry for every
      thread that has no overlay entry of that name. */
  lemma MainClearIsShared(w: World, id: ContextId, t: ThreadId, name: string)
    requires Valid(w) && id in w.stores && w.mainThread.GetOr(t) == t
    ensures var r := SharedClearVar(w, id, t, name);
            && r.overlays == w.overlays
            && (forall u :: name !in Overlay(w, u) ==> id in r.stores && SharedFindVar(r, id, u, name) == None)
            && (forall u :: name in Overlay(w, u) ==>
                  id in r.stores && SharedFindVar(r, id, u, name) == SharedFindVar(w, id, u, name))
            && (forall i, u, n :: i in w.stores && i != id ==>
                  SharedFindVar(r, i, u, n) == SharedFindVar(w, i, u, n))
  {
  }

  /** End to end: after a worker's `set_var`, `{name}` formats as the new
      value on that thread and as before on every other thread. */
  lemma WorkerFormatsOwnValue(p: Platform, w: World, id: ContextId, t: ThreadId, u: ThreadId, name: string, value: string)
    requires Valid(w) && id in w.stores && w.mainThread.Some? && w.mainThread.value != t && u != t
    requires name != [] && !IsDigit(name[0]) && ':' !in name && '}' !in name
    ensures var r := SharedSetVar(w, id, t, name, value);
            && id in r.stores
            && SharedFormat(p, r, id, t, "{" + name + "}", []) == value
            && SharedFormat(p, r, id, u, "{" + name + "}", []) == SharedFormat(p, w, id, u, "{" + name + "}", [])
  {
    var r := SharedSetVar(w, id, t, name, value);
    WorkerWriteIsPrivate(w, id, t, name, value);
    assert BindArgs(p, r.stores[id].formatters, []) == [] == BindArgs(p, w.stores[id].formatters, []);
    SingleNamedPlaceholder(p, SharedLookup(r, id, t), name);
    SingleNamedPlaceholder(p, SharedLookup(r, id, u), name);
    SingleNamedPlaceholder(p, SharedLookup(w, id, u), name);
  }

  // ---------------------------------------------------------------------
  // The registry
  // ---------------------------------------------------------------------

  /** A name keeps naming the same context until it is removed. */
  lemma GetContextIsStable(w: World, name: string)
    requires Valid(w)
    ensures var (w1, a) := GetContext(w, name);
            GetContext(w1, name) == (w1, a)
  {
  }

  /** After `remove_context(name)`, `get_context(name)` creates a new, empty
      context; the old one is unchanged for those still holding it. */
  lemma RemoveThenGetIsFresh(w: World, name: string)
    requires Valid(w) && name in w.registry
    ensures var prev := w.registry[name];
            var (w1, b) := GetContext(RemoveContext(w, name), name);
            && b != prev && w1.stores[b] == EmptyStore
            && prev in w1.stores && w1.stores[prev] == w.stores[prev]
  {
  }

  /** After `clear_all_contexts()`, every name gets a new, empty context. */
  lemma ClearAllThenGetIsFresh(w: World, name: string)
    requires Valid(w)
    ensures var (w1, b) := GetContext(ClearAllContexts(w), name);
            && b !in w.stores && w1.stores[b] == EmptyStore
  {
  }

  /** Distinct names never share a context, so a write through one leaves
      the other's variables alone. */
  lemma DistinctNamesAreIsolated(w: World, n1: string, n2: string, t: ThreadId, name: string, value: string)
    requires Valid(w) && n1 in w.registry && n2 in w.registry && n1 != n2
    requires w.mainThread.GetOr(t) == t
    ensures var r := SharedSetVar(w, w.registry[n1], t, name, value);
            forall u, n :: SharedFindVar(r, w.registry[n2], u, n) == SharedFindVar(w, w.registry[n2], u, n)
  {
    MainWriteIsShared(w, w.registry[n1], t, name, value);
  }
}
