/** Who owns the imported buffer handles: the device session, or one of the offline sessions
    it has been switched to. A handle is known by the import that made it. */
module BufferOwnership {
  import Runs

  type StreamId = int
  type BufferId = nat
  type Handle = nat

  /** Stream id -> (buffer id -> imported handle), mCirculatingBuffers of either session. */
  type Cache = map<StreamId, map<BufferId, Handle>>

  /** One session. streams is the domain of mStreamMap, or the ids of mOfflineStreams. */
  datatype Owner = Owner(streams: set<StreamId>, cache: Cache, closed: bool)

  /** owners[0] is the device session, the others the offline sessions in order of creation.
      imports counts the handles made so far, freed the calls to free each; leaked are those that
      a switch has cleared out of the cache without freeing them. */
  datatype World = World(owners: seq<Owner>, imports: nat, freed: multiset<Handle>,
                         leaked: set<Handle>)

  datatype Step =
    | Configure(streams: set<StreamId>)
    | Import(k: nat, stream: StreamId, id: BufferId)  // a buffer not seen before, imported
    | Touch(k: nat, stream: StreamId)                 // mCirculatingBuffers[stream]
    | Mention(streams: set<StreamId>)                 // mStreamMap[id] for each of them
    | RemoveCaches(caches: set<(StreamId, BufferId)>)
    | Close(k: nat)
    | SwitchToOffline(keep: set<StreamId>, init: bool, returned: bool)

  const Init := World([Owner({}, map[], false)], 0, multiset{}, {})

  // ---------------------------------------------------------------- steps

  /** The handles under the given streams. */
  function Under(cache: Cache, streams: set<StreamId>): set<Handle> {
    set s, b | s in cache && s in streams && b in cache[s] :: cache[s][b]
  }

  /** cleanupBuffersLocked for each of the streams. */
  function DropStreams(w: World, k: nat, streams: set<StreamId>): World
    requires k < |w.owners|
  {
    var o := w.owners[k];
    w.(owners := w.owners[k := o.(cache := o.cache - streams)],
       freed := w.freed + multiset(Under(o.cache, streams)))
  }

  /** The buffers of a stream, none if it is unknown. */
  function Buffers(cache: Cache, stream: StreamId): map<BufferId, Handle> {
    if stream in cache then cache[stream] else map[]
  }

  /** The cache with one more buffer, its stream added if unknown. */
  function Cached(cache: Cache, stream: StreamId, id: BufferId, handle: Handle): Cache {
    var buffers: map<BufferId, Handle> := Buffers(cache, stream)[id := handle];
    cache[stream := buffers]
  }

  /** updateBufferCaches: what is not cached is skipped. */
  function WithoutCaches(cache: Cache, caches: set<(StreamId, BufferId)>): Cache {
    map s | s in cache :: map b | b in cache[s] && (s, b) !in caches :: cache[s][b]
  }

  function Removed(cache: Cache, caches: set<(StreamId, BufferId)>): set<Handle> {
    set s, b | s in cache && b in cache[s] && (s, b) in caches :: cache[s][b]
  }

  /** The cache with an entry for each of the new streams; those that have one keep it. */
  function Extended(cache: Cache, streams: set<StreamId>): Cache {
    map s | s in cache.Keys + streams :: Buffers(cache, s)
  }

  function CloseOwner(w: World, k: nat): World
    requires k < |w.owners|
  {
    var o := w.owners[k];
    if o.closed then w
    else
      var dropped := DropStreams(w, k, o.streams);
      dropped.(owners := dropped.owners[k := dropped.owners[k].(closed := true)])
  }

  /** A step whose .at(id) lookups find nothing throws, and is none. */
  predicate Enabled(w: World, step: Step) {
    && w.owners != []
    && match step
       case Configure(streams) =>
         var o := w.owners[0];
         !o.closed && o.streams - streams <= o.cache.Keys
       case Import(k, stream, id) =>
         k < |w.owners| && !w.owners[k].closed && id !in Buffers(w.owners[k].cache, stream)
       case Touch(k, _) => k < |w.owners| && !w.owners[k].closed
       case Mention(_) => !w.owners[0].closed
       case RemoveCaches(_) => true
       case Close(k) =>
         k < |w.owners| && (w.owners[k].closed || w.owners[k].streams <= w.owners[k].cache.Keys)
       case SwitchToOffline(keep, init, _) =>
         var o := w.owners[0];
         && !o.closed && keep <= o.streams && keep <= o.cache.Keys
         && (init ==> o.streams <= o.cache.Keys)
  }

  /** The step names no stream that its session does not have. */
  predicate Tidy(w: World, step: Step)
    requires Enabled(w, step)
  {
    match step
    case Import(k, stream, _) => stream in w.owners[k].cache
    case Touch(k, stream) => stream in w.owners[k].cache
    case Mention(streams) => streams <= w.owners[0].streams
    case _ => true
  }

  function Apply(w: World, step: Step): World
    requires Enabled(w, step)
  {
    match step
    case Configure(streams) =>
      var known := w.owners[0].streams;
      var dropped := DropStreams(w, 0, known - streams);
      var cache := Extended(dropped.owners[0].cache, streams - known);
      dropped.(owners := dropped.owners[0 := Owner(streams, cache, false)])
    case Import(k, stream, id) =>
      var o := w.owners[k];
      w.(owners := w.owners[k := o.(cache := Cached(o.cache, stream, id, w.imports))],
         imports := w.imports + 1)
    case Touch(k, stream) =>
      var o := w.owners[k];
      w.(owners := w.owners[k := o.(cache := Extended(o.cache, {stream}))])
    case Mention(streams) =>
      var o := w.owners[0];
      w.(owners := w.owners[0 := o.(streams := o.streams + streams)])
    case RemoveCaches(caches) =>
      var o := w.owners[0];
      w.(owners := w.owners[0 := o.(cache := WithoutCaches(o.cache, caches))],
         freed := w.freed + multiset(Removed(o.cache, caches)))
    case Close(k) =>
      CloseOwner(w, k)
    case SwitchToOffline(keep, init, returned) =>
      var k := |w.owners|;
      var split := Moved(w, keep);
      // A session that fails to initialise, or has no request, is destroyed: it closes itself.
      if !init then CloseOwner(split, k)
      else
        var emptied := Cleared(DropStreams(split, 0, split.owners[0].streams));
        if returned then emptied else CloseOwner(emptied, k)
  }

  /** The world after the kept streams have moved to a new offline session. */
  function Moved(w: World, keep: set<StreamId>): World
    requires w.owners != []
  {
    var o := w.owners[0];
    var moved := map s | s in keep && s in o.cache :: o.cache[s];
    w.(owners := w.owners[0 := Owner(o.streams - keep, o.cache - keep, false)]
                 + [Owner(keep, moved, false)])
  }

  /** The device session's maps are cleared: what is still in the cache is leaked. */
  function Cleared(w: World): World
    requires w.owners != []
  {
    w.(owners := w.owners[0 := Owner({}, map[], false)],
       leaked := w.leaked + Under(w.owners[0].cache, w.owners[0].cache.Keys))
  }

  ghost predicate Next(w: World, v: World) {
    exists step :: Enabled(w, step) && v == Apply(w, step)
  }

  ghost predicate NextTidy(w: World, v: World) {
    exists step :: Enabled(w, step) && Tidy(w, step) && v == Apply(w, step)
  }

  ghost predicate Reachable(w: World) { Runs.Reachable(w, Init, Next) }

  /** By tidy steps only. */
  ghost predicate TidilyReachable(w: World) { Runs.Reachable(w, Init, NextTidy) }

  // ---------------------------------------------------------------- ownership

  /** A place where a handle can be kept. */
  datatype Place = Place(k: nat, stream: StreamId, id: BufferId)

  predicate Has(w: World, p: Place) {
    p.k < |w.owners| && p.stream in w.owners[p.k].cache && p.id in w.owners[p.k].cache[p.stream]
  }

  function At(w: World, p: Place): Handle
    requires Has(w, p)
  {
    w.owners[p.k].cache[p.stream][p.id]
  }

  ghost predicate Holds(w: World, h: Handle) {
    exists p :: Has(w, p) && At(w, p) == h
  }

  /** Every handle made is in exactly one place, or has been freed exactly once, or is leaked. */
  ghost predicate Owned(w: World) {
    && (forall p, q :: Has(w, p) && Has(w, q) && At(w, p) == At(w, q) ==> p == q)
    && (forall p :: Has(w, p) ==> At(w, p) < w.imports)
    && (forall h :: w.freed[h] <= 1)
    && (forall h: Handle ::
          h < w.imports <==> Holds(w, h) || w.freed[h] == 1 || h in w.leaked)
    && (forall h :: !(Holds(w, h) && w.freed[h] == 1))
    && (forall h :: h in w.leaked ==> !Holds(w, h) && w.freed[h] == 0)
  }

  /** A session that is open has a cache for exactly its streams; a closed one holds nothing; and
      nothing is leaked. */
  ghost predicate Domains(w: World) {
    && w.owners != [] && w.leaked == {}
    && forall k :: 0 <= k < |w.owners| ==>
         if w.owners[k].closed then w.owners[k].cache == map[]
         else w.owners[k].cache.Keys == w.owners[k].streams
  }

  /** Places only disappear, and the handles that were in them are freed once each, or leaked. */
  ghost predicate Shrunk(w: World, v: World, gone: set<Handle>, leaks: set<Handle>) {
    && v.imports == w.imports
    && v.freed == w.freed + multiset(gone) && v.leaked == w.leaked + leaks && gone !! leaks
    && (forall p :: Has(v, p) ==> Has(w, p) && At(v, p) == At(w, p))
    && (forall p :: Has(w, p) ==> (At(w, p) in gone + leaks <==> !Has(v, p)))
    && (forall h :: h in gone + leaks ==> Holds(w, h))
  }

  lemma {:induction false} ShrunkOwned(w: World, v: World, gone: set<Handle>, leaks: set<Handle>)
    requires Owned(w) && Shrunk(w, v, gone, leaks)
    ensures Owned(v)
  {
    forall h: Handle ensures Holds(v, h) <==> Holds(w, h) && h !in gone + leaks {
      if Holds(w, h) && h !in gone + leaks {
        var p :| Has(w, p) && At(w, p) == h;
        assert Has(v, p) && At(v, p) == h;
      }
      if Holds(v, h) {
        var p :| Has(v, p) && At(v, p) == h;
        assert Has(w, p) && At(w, p) == h;
      }
    }
    forall h: Handle ensures v.freed[h] == w.freed[h] + if h in gone then 1 else 0 {}
  }

  lemma {:induction false} DropStreamsShrinks(w: World, k: nat, streams: set<StreamId>)
    requires Owned(w) && k < |w.owners|
    ensures Shrunk(w, DropStreams(w, k, streams), Under(w.owners[k].cache, streams), {})
  {
    var v := DropStreams(w, k, streams);
    var cache := w.owners[k].cache;
    var gone := Under(cache, streams);
    forall h | h in gone ensures Holds(w, h) {
      var s, b :| s in cache && s in streams && b in cache[s] && cache[s][b] == h;
      assert Has(w, Place(k, s, b)) && At(w, Place(k, s, b)) == h;
    }
    forall p | Has(w, p) ensures At(w, p) in gone <==> !Has(v, p) {
      if At(w, p) in gone {
        var s, b :| s in cache && s in streams && b in cache[s] && cache[s][b] == At(w, p);
        assert Has(w, Place(k, s, b)) && At(w, Place(k, s, b)) == At(w, p);
        assert p == Place(k, s, b);
      }
    }
  }

  lemma {:induction false} RemoveCachesShrinks(w: World, caches: set<(StreamId, BufferId)>)
    requires Owned(w) && Enabled(w, RemoveCaches(caches))
    ensures Shrunk(w, Apply(w, RemoveCaches(caches)), Removed(w.owners[0].cache, caches), {})
  {
    var v := Apply(w, RemoveCaches(caches));
    var cache := w.owners[0].cache;
    var gone := Removed(cache, caches);
    forall h | h in gone ensures Holds(w, h) {
      var s, b :| s in cache && b in cache[s] && (s, b) in caches && cache[s][b] == h;
      assert Has(w, Place(0, s, b)) && At(w, Place(0, s, b)) == h;
    }
    forall p | Has(w, p) ensures At(w, p) in gone <==> !Has(v, p) {
      if At(w, p) in gone {
        var s, b :| s in cache && b in cache[s] && (s, b) in caches && cache[s][b] == At(w, p);
        assert Has(w, Place(0, s, b)) && At(w, Place(0, s, b)) == At(w, p);
        assert p == Place(0, s, b);
      }
    }
  }

  /** Nothing changes but the bookkeeping beside the caches: the places are the same. */
  lemma {:induction false} SamePlaces(w: World, v: World)
    requires Owned(w) && v.imports == w.imports && v.freed == w.freed && v.leaked == w.leaked
    requires forall p :: Has(v, p) <==> Has(w, p)
    requires forall p :: Has(w, p) ==> Has(v, p) && At(v, p) == At(w, p)
    ensures Owned(v)
  {
    forall h: Handle ensures Holds(v, h) <==> Holds(w, h) {
      if Holds(w, h) {
        var p :| Has(w, p) && At(w, p) == h;
        assert Has(v, p) && At(v, p) == h;
      }
      if Holds(v, h) {
        var p :| Has(v, p) && At(v, p) == h;
        assert Has(w, p) && At(w, p) == h;
      }
    }
  }

  lemma {:induction false} ImportOwned(w: World, step: Step)
    requires Owned(w) && Enabled(w, step) && step.Import?
    ensures Owned(Apply(w, step))
  {
    var v := Apply(w, step);
    var made := Place(step.k, step.stream, step.id);
    forall p ensures Has(v, p) <==> Has(w, p) || p == made { ImportPlaces(w, step, p); }
    forall p | Has(w, p) ensures At(v, p) == At(w, p) { ImportPlaces(w, step, p); }
    ImportPlaces(w, step, made);
    forall h: Handle ensures Holds(v, h) <==> Holds(w, h) || h == w.imports {
      if Holds(w, h) {
        var p :| Has(w, p) && At(w, p) == h;
        assert Has(v, p) && At(v, p) == h;
      }
      if Holds(v, h) {
        var p :| Has(v, p) && At(v, p) == h;
        if p != made { assert Has(w, p) && At(w, p) == h; }
      }
    }
    assert w.freed[w.imports] == 0 by {
      assert !(w.imports < w.imports);
    }
  }

  /** The imported buffer is found under its own stream and id, where none was; every other place
      keeps its handle. */
  lemma {:induction false} ImportPlaces(w: World, step: Step, p: Place)
    requires Enabled(w, step) && step.Import?
    ensures var v, made := Apply(w, step), Place(step.k, step.stream, step.id);
            && !Has(w, made) && Has(v, made) && At(v, made) == w.imports
            && (Has(v, p) <==> Has(w, p) || p == made)
            && (Has(w, p) ==> At(v, p) == At(w, p))
            && v.imports == w.imports + 1 && v.freed == w.freed && v.leaked == w.leaked
  {
  }

  lemma {:induction false} CloseOwned(w: World, k: nat)
    requires Owned(w) && k < |w.owners|
    ensures Owned(CloseOwner(w, k))
  {
    if !w.owners[k].closed {
      DropStreamsShrinks(w, k, w.owners[k].streams);
      var dropped := DropStreams(w, k, w.owners[k].streams);
      ShrunkOwned(w, dropped, Under(w.owners[k].cache, w.owners[k].streams), {});
      SamePlaces(dropped, CloseOwner(w, k));
    }
  }

  lemma {:induction false} CloseDomains(w: World, k: nat)
    requires Domains(w) && k < |w.owners|
    ensures Domains(CloseOwner(w, k))
  {
    if !w.owners[k].closed {
      var o := w.owners[k];
      assert o.cache - o.streams == map[];
    }
  }

  lemma {:induction false} ConfigureOwned(w: World, step: Step)
    requires Owned(w) && Enabled(w, step) && step.Configure?
    ensures Owned(Apply(w, step))
  {
    var out := w.owners[0].streams - step.streams;
    var dropped := DropStreams(w, 0, out);
    DropStreamsShrinks(w, 0, out);
    ShrunkOwned(w, dropped, Under(w.owners[0].cache, out), {});
    SamePlaces(dropped, Apply(w, step));
  }

  lemma {:induction false} TouchOwned(w: World, step: Step)
    requires Owned(w) && Enabled(w, step) && (step.Touch? || step.Mention?)
    ensures Owned(Apply(w, step))
  {
    SamePlaces(w, Apply(w, step));
  }

  /** Moving streams renames places and changes no handle. */
  lemma {:induction false} MoveOwned(w: World, keep: set<StreamId>)
    requires Owned(w) && w.owners != []
    ensures Owned(Moved(w, keep))
  {
    var v := Moved(w, keep);
    var n := |w.owners|;
    forall p | Has(v, p)
      ensures Has(w, Old(p, n)) && At(w, Old(p, n)) == At(v, p)
    {
    }
    forall p | Has(w, p)
      ensures Has(v, New(p, n, keep)) && At(v, New(p, n, keep)) == At(w, p)
    {
    }
    forall p, q | Has(v, p) && Has(v, q) && At(v, p) == At(v, q) ensures p == q {
      assert Old(p, n) == Old(q, n);
    }
    forall h: Handle ensures Holds(v, h) <==> Holds(w, h) {
      if Holds(w, h) {
        var p :| Has(w, p) && At(w, p) == h;
        assert Has(v, New(p, n, keep)) && At(v, New(p, n, keep)) == h;
      }
      if Holds(v, h) {
        var p :| Has(v, p) && At(v, p) == h;
        assert Has(w, Old(p, n)) && At(w, Old(p, n)) == h;
      }
    }
  }

  function Old(p: Place, n: nat): Place { if p.k == n then p.(k := 0) else p }

  function New(p: Place, n: nat, keep: set<StreamId>): Place {
    if p.k == 0 && p.stream in keep then p.(k := n) else p
  }

  lemma {:induction false} ClearedShrinks(w: World)
    requires Owned(w) && w.owners != []
    ensures Shrunk(w, Cleared(w), {}, Under(w.owners[0].cache, w.owners[0].cache.Keys))
  {
    var cache := w.owners[0].cache;
    var leaks := Under(cache, cache.Keys);
    forall h | h in leaks ensures Holds(w, h) {
      var s, b :| s in cache && b in cache[s] && cache[s][b] == h;
      assert Has(w, Place(0, s, b)) && At(w, Place(0, s, b)) == h;
    }
    forall p | Has(w, p) ensures At(w, p) in leaks <==> !Has(Cleared(w), p) {
      if At(w, p) in leaks {
        var s, b :| s in cache && b in cache[s] && cache[s][b] == At(w, p);
        assert Has(w, Place(0, s, b)) && At(w, Place(0, s, b)) == At(w, p);
        assert p == Place(0, s, b);
      }
    }
  }

  /** The device session is emptied: its streams are freed, the rest of its cache is leaked. */
  lemma {:induction false} EmptyOwned(w: World)
    requires Owned(w) && w.owners != []
    ensures Owned(Cleared(DropStreams(w, 0, w.owners[0].streams)))
  {
    var o := w.owners[0];
    var dropped := DropStreams(w, 0, o.streams);
    DropStreamsShrinks(w, 0, o.streams);
    ShrunkOwned(w, dropped, Under(o.cache, o.streams), {});
    ClearedShrinks(dropped);
    ShrunkOwned(dropped, Cleared(dropped), {},
                Under(dropped.owners[0].cache, dropped.owners[0].cache.Keys));
  }

  lemma {:induction false} SwitchOwned(w: World, step: Step)
    requires Owned(w) && Enabled(w, step) && step.SwitchToOffline?
    ensures Owned(Apply(w, step))
  {
    var k := |w.owners|;
    var split := Moved(w, step.keep);
    MoveOwned(w, step.keep);
    if !step.init {
      CloseOwned(split, k);
    } else {
      EmptyOwned(split);
      if !step.returned {
        CloseOwned(Cleared(DropStreams(split, 0, split.owners[0].streams)), k);
      }
    }
  }

  lemma {:induction false} MoveDomains(w: World, keep: set<StreamId>)
    requires Domains(w) && !w.owners[0].closed && keep <= w.owners[0].streams
    ensures Domains(Moved(w, keep))
  {
    var v := Moved(w, keep);
    forall k | 0 <= k < |v.owners|
      ensures if v.owners[k].closed then v.owners[k].cache == map[]
              else v.owners[k].cache.Keys == v.owners[k].streams
    {
      if 0 < k < |w.owners| { assert v.owners[k] == w.owners[k]; }
    }
  }

  lemma {:induction false} EmptyDomains(w: World)
    requires Domains(w) && !w.owners[0].closed
    ensures Domains(Cleared(DropStreams(w, 0, w.owners[0].streams)))
  {
    var o := w.owners[0];
    assert o.cache - o.streams == map[];
    assert Under(map[], {}) == {};
  }

  lemma {:induction false} SwitchDomains(w: World, step: Step)
    requires Domains(w) && Enabled(w, step) && step.SwitchToOffline?
    ensures Domains(Apply(w, step))
  {
    var k := |w.owners|;
    var split := Moved(w, step.keep);
    MoveDomains(w, step.keep);
    if !step.init {
      CloseDomains(split, k);
    } else {
      EmptyDomains(split);
      if !step.returned {
        CloseDomains(Cleared(DropStreams(split, 0, split.owners[0].streams)), k);
      }
    }
  }

  lemma {:induction false} OwnedStep(w: World, step: Step)
    requires Owned(w) && Enabled(w, step)
    ensures Owned(Apply(w, step))
  {
    match step
    case Configure(_) => ConfigureOwned(w, step);
    case Import(_, _, _) => ImportOwned(w, step);
    case Touch(_, _) => TouchOwned(w, step);
    case Mention(_) => TouchOwned(w, step);
    case RemoveCaches(caches) =>
      RemoveCachesShrinks(w, caches);
      ShrunkOwned(w, Apply(w, step), Removed(w.owners[0].cache, caches), {});
    case Close(k) => CloseOwned(w, k);
    case SwitchToOffline(_, _, _) => SwitchOwned(w, step);
  }

  /** Steps that name known streams only keep the domains equal. */
  lemma {:induction false} DomainsStep(w: World, step: Step)
    requires Domains(w) && Enabled(w, step) && Tidy(w, step)
    ensures Domains(Apply(w, step))
  {
    match step
    case Close(k) => CloseDomains(w, k);
    case SwitchToOffline(_, _, _) => SwitchDomains(w, step);
    case _ =>
  }

  lemma {:induction false} OwnedReachable(w: World)
    requires Reachable(w)
    ensures Owned(w)
  {
    forall a, b | Owned(a) && Next(a, b) ensures Owned(b) {
      var step :| Enabled(a, step) && b == Apply(a, step);
      OwnedStep(a, step);
    }
    Runs.Invariant(w, Init, Next, Owned);
  }

  ghost predicate Inv(w: World) { Owned(w) && Domains(w) }

  lemma {:induction false} InvReachable(w: World)
    requires TidilyReachable(w)
    ensures Owned(w) && Domains(w)
  {
    forall a, b | Inv(a) && NextTidy(a, b) ensures Inv(b) {
      var step :| Enabled(a, step) && Tidy(a, step) && b == Apply(a, step);
      OwnedStep(a, step);
      DomainsStep(a, step);
    }
    Runs.Invariant(w, Init, NextTidy, Inv);
  }

  // ---------------------------------------------------------------- the promises

  /** Every handle that was ever imported, by whatever requests, is kept in exactly one place of
      one session, or freed exactly once, or leaked: never two of these. */
  lemma {:induction false} HeldFreedOrLeaked(w: World, h: Handle)
    requires Reachable(w) && h < w.imports
    ensures Holds(w, h) ==>
              && w.freed[h] == 0 && h !in w.leaked
              && exists p :: Has(w, p) && At(w, p) == h
                   && forall q :: Has(w, q) && At(w, q) == h ==> q == p
    ensures !Holds(w, h) ==> (w.freed[h] == 1 <==> h !in w.leaked)
    ensures w.freed[h] <= 1
  {
    OwnedReachable(w);
    assert w.freed[h] <= 1;
    if Holds(w, h) {
      assert !(Holds(w, h) && w.freed[h] == 1);
      var p :| Has(w, p) && At(w, p) == h;
      assert forall q :: Has(w, q) && At(w, q) == h ==> q == p;
    }
  }

  /** While every step names known streams only, nothing is leaked: a handle is kept in one place
      and never freed, or kept nowhere and freed once. */
  lemma {:induction false} OneOwnerOrFreedOnce(w: World, h: Handle)
    requires TidilyReachable(w) && h < w.imports
    ensures Holds(w, h) ==>
              && w.freed[h] == 0
              && exists p :: Has(w, p) && At(w, p) == h
                   && forall q :: Has(w, q) && At(w, q) == h ==> q == p
    ensures !Holds(w, h) ==> w.freed[h] == 1
  {
    InvReachable(w);
    assert w.freed[h] <= 1;
    if Holds(w, h) {
      assert !(Holds(w, h) && w.freed[h] == 1);
      var p :| Has(w, p) && At(w, p) == h;
      assert forall q :: Has(w, q) && At(w, q) == h ==> q == p;
    }
  }

  /** No handle is ever freed that was not imported, and none twice, in any run. */
  lemma {:induction false} NeverFreedTwice(w: World, h: Handle)
    requires Reachable(w)
    ensures w.freed[h] <= if h < w.imports then 1 else 0
  {
    OwnedReachable(w);
    assert w.freed[h] <= 1;
    assert h < w.imports <==> Holds(w, h) || w.freed[h] == 1 || h in w.leaked;
  }

  /** Every .at(id) that walks the streams of an open session finds its entry. */
  lemma {:induction false} LookupsNeverFail(w: World, k: nat, s: StreamId)
    requires TidilyReachable(w) && k < |w.owners| && !w.owners[k].closed
    ensures s in w.owners[k].streams <==> s in w.owners[k].cache
  {
    InvReachable(w);
  }

  /** When every session is closed, every imported handle has been freed, once. */
  lemma {:induction false} AllClosedAllFreed(w: World, h: Handle)
    requires TidilyReachable(w) && h < w.imports
    requires forall k :: 0 <= k < |w.owners| ==> w.owners[k].closed
    ensures w.freed[h] == 1
  {
    InvReachable(w);
    OneOwnerOrFreedOnce(w, h);
    assert forall p :: !Has(w, p);
  }

  /** Exactly the listed buffers of the device session go. */
  lemma {:induction false} RemovePlaces(w: World, caches: set<(StreamId, BufferId)>, p: Place)
    requires Enabled(w, RemoveCaches(caches))
    ensures var v := Apply(w, RemoveCaches(caches));
            && (Has(v, p) <==> Has(w, p) && !(p.k == 0 && (p.stream, p.id) in caches))
            && (Has(v, p) ==> At(v, p) == At(w, p))
  {
  }

  /** A configuration has exactly the given streams, and takes exactly the buffers of the streams
      that it removes. */
  lemma {:induction false} ConfigurePlaces(w: World, streams: set<StreamId>, p: Place)
    requires Enabled(w, Configure(streams))
    ensures var v, o := Apply(w, Configure(streams)), w.owners[0];
            && v.owners[0].streams == streams
            && (Has(v, p) <==> Has(w, p) && !(p.k == 0 && p.stream in o.streams - streams))
            && (Has(v, p) ==> At(v, p) == At(w, p))
  {
  }

  /** A close takes exactly the buffers of the session's streams, once. */
  lemma {:induction false} ClosePlaces(w: World, k: nat, p: Place)
    requires Enabled(w, Close(k))
    ensures var v, o := Apply(w, Close(k)), w.owners[k];
            && v.owners[k].closed
            && (Has(v, p) <==> Has(w, p) && !(!o.closed && p.k == k && p.stream in o.streams))
            && (Has(v, p) ==> At(v, p) == At(w, p))
  {
  }

  /** After a switch the offline session has exactly the kept streams' buffers, if it is handed out;
      the device session has none, or, if the offline one failed, those of the other streams; all
      other sessions are as they were. */
  lemma {:induction false} SwitchPlaces(w: World, step: Step, p: Place)
    requires Enabled(w, step) && step.SwitchToOffline?
    ensures var v, n := Apply(w, step), |w.owners|;
            && |v.owners| == n + 1
            && (v.owners[n].closed <==> !(step.init && step.returned))
            && (Has(v, p) <==>
                  if p.k == n then
                    step.init && step.returned && p.stream in step.keep && Has(w, p.(k := 0))
                  else if p.k == 0 then !step.init && p.stream !in step.keep && Has(w, p)
                  else Has(w, p))
            && (Has(v, p) ==> At(v, p) == At(w, if p.k == n then p.(k := 0) else p))
  {
    var n := |w.owners|;
    var split := Moved(w, step.keep);
    MovedPlaces(w, step.keep, p);
    if !step.init {
      ClosedPlaces(split, n, p);
    } else {
      var emptied := Cleared(DropStreams(split, 0, split.owners[0].streams));
      assert Has(emptied, p) <==> p.k != 0 && Has(split, p);
      if !step.returned { ClosedPlaces(emptied, n, p); }
    }
  }

  lemma {:induction false} MovedPlaces(w: World, keep: set<StreamId>, p: Place)
    requires w.owners != []
    ensures var v, n := Moved(w, keep), |w.owners|;
            && |v.owners| == n + 1 && v.owners[n].streams == keep && !v.owners[n].closed
            && (Has(v, p) <==>
                  if p.k == n then p.stream in keep && Has(w, p.(k := 0))
                  else Has(w, p) && !(p.k == 0 && p.stream in keep))
            && (Has(v, p) ==> At(v, p) == At(w, if p.k == n then p.(k := 0) else p))
  {
  }

  lemma {:induction false} ClosedPlaces(w: World, k: nat, p: Place)
    requires k < |w.owners| && !w.owners[k].closed
    ensures var v := CloseOwner(w, k);
            && |v.owners| == |w.owners| && v.owners[k].closed
            && (Has(v, p) <==> Has(w, p) && !(p.k == k && p.stream in w.owners[k].streams))
            && (Has(v, p) ==> At(v, p) == At(w, p))
  {
  }

  /** A close frees what is cached for the session's streams and leaves the rest: every handle of
      the session is freed exactly when each buffer is cached for one of its streams. */
  lemma {:induction false} CloseFreesAllExactly(w: World, k: nat)
    requires Reachable(w) && Enabled(w, Close(k)) && !w.owners[k].closed
    ensures (forall p: Place :: p.k == k && Has(w, p) ==> Apply(w, Close(k)).freed[At(w, p)] == 1)
       <==> forall p: Place :: p.k == k && Has(w, p) ==> p.stream in w.owners[k].streams
  {
    OwnedReachable(w);
    var v := Apply(w, Close(k));
    CloseOwned(w, k);
    forall p: Place | p.k == k && Has(w, p)
      ensures v.freed[At(w, p)] == 1 <==> p.stream in w.owners[k].streams
    {
      CloseFrees(w, p);
    }
  }

  lemma {:induction false} CloseFrees(w: World, p: Place)
    requires Owned(w) && Has(w, p) && !w.owners[p.k].closed
    ensures CloseOwner(w, p.k).freed[At(w, p)]
         == if p.stream in w.owners[p.k].streams then 1 else 0
  {
    var o, h := w.owners[p.k], At(w, p);
    assert w.freed[h] == 0 by {
      assert Holds(w, h);
      assert w.freed[h] <= 1;
    }
    if h in Under(o.cache, o.streams) {
      var s, b :| s in o.cache && s in o.streams && b in o.cache[s] && o.cache[s][b] == h;
      assert Has(w, Place(p.k, s, b)) && At(w, Place(p.k, s, b)) == h;
    }
  }

  /** A switch leaks exactly the buffers that the device session has cached for streams that are
      not in its stream map; no other step leaks any. */
  lemma {:induction false} LeaksExactly(w: World, step: Step, h: Handle)
    requires Reachable(w) && Enabled(w, step)
    ensures h in Apply(w, step).leaked
       <==> h in w.leaked
            || (step.SwitchToOffline? && step.init
                && h in Under(w.owners[0].cache, w.owners[0].cache.Keys - w.owners[0].streams))
  {
    if step.SwitchToOffline? && step.init {
      var o := w.owners[0];
      SwitchLeaks(w, step);
      var rest := o.cache - step.keep - (o.streams - step.keep);
      assert rest == o.cache - o.streams;
      if h in Under(rest, rest.Keys) {
        var s, b :| s in rest && b in rest[s] && rest[s][b] == h;
        assert s in o.cache.Keys - o.streams && o.cache[s][b] == h;
      }
      if h in Under(o.cache, o.cache.Keys - o.streams) {
        var s, b :| s in o.cache && s !in o.streams && b in o.cache[s] && o.cache[s][b] == h;
        assert s in rest && rest[s][b] == h;
      }
    }
  }

  lemma {:induction false} SwitchLeaks(w: World, step: Step)
    requires Enabled(w, step) && step.SwitchToOffline? && step.init
    ensures var o := w.owners[0];
            var rest := o.cache - step.keep - (o.streams - step.keep);
            Apply(w, step).leaked == w.leaked + Under(rest, rest.Keys)
  {
  }

  // ---------------------------------------------------------------- unknown stream ids

  /** What the steps of a request do to the two domains. */
  lemma {:induction false} RequestSteps(w: World, step: Step)
    requires Enabled(w, step)
    requires || (step.Import? && step.k == 0) || (step.Touch? && step.k == 0) || step.Mention?
    ensures var o, t := w.owners[0], Apply(w, step).owners[0];
            if step.Mention? then t.streams == o.streams + step.streams && t.cache == o.cache
            else t.streams == o.streams && t.cache.Keys == o.cache.Keys + {step.stream}
  {
  }

  /** One output buffer of a request: empty means a null handle with id 0, good that the
      buffer is cached already or imports without error. */
  datatype OutBuffer = OutBuffer(stream: StreamId, empty: bool, good: bool)

  /** keys: the domain of the cache; filled: the streams that a buffer has been cached for. */
  datatype Imported = Imported(keys: set<StreamId>, filled: set<StreamId>, ok: bool)

  /** The loop of importRequestLockedImpl: operator[] adds an entry for a stream it does not know,
      unless the buffer is empty; the first failure ends the loop. */
  method ImportAll(keys: set<StreamId>, bufs: seq<OutBuffer>, allowEmpty: bool)
    returns (r: Imported)
    ensures r == Imported(keys + Touched(bufs, allowEmpty), Filled(bufs, allowEmpty),
                          FirstBad(bufs, allowEmpty) == |bufs|)
  {
    var known, filled := keys, {};
    for i := 0 to |bufs|
      invariant forall j :: 0 <= j < i ==> !Bad(bufs[j], allowEmpty)
      invariant known == keys + Streams(bufs[..i]) && filled == Streams(bufs[..i])
    {
      assert bufs[..i + 1] == bufs[..i] + [bufs[i]];
      StreamsMore(bufs[..i], bufs[i]);
      if Bad(bufs[i], allowEmpty) { FirstBadIs(bufs, allowEmpty, i); }
      if bufs[i].empty {
        if !allowEmpty { return Imported(known, filled, false); }
      } else {
        known := known + {bufs[i].stream};
        if !bufs[i].good { return Imported(known, filled, false); }
        filled := filled + {bufs[i].stream};
      }
    }
    FirstBadIs(bufs, allowEmpty, |bufs|);
    assert bufs[..|bufs|] == bufs;
    r := Imported(known, filled, true);
  }

  predicate Bad(b: OutBuffer, allowEmpty: bool) { if b.empty then !allowEmpty else !b.good }

  /** The index of the first buffer that fails, or the number of buffers. */
  function FirstBad(bufs: seq<OutBuffer>, allowEmpty: bool): (n: nat)
    ensures n <= |bufs|
  {
    if bufs == [] || Bad(bufs[0], allowEmpty) then 0 else 1 + FirstBad(bufs[1..], allowEmpty)
  }

  lemma {:induction false} FirstBadIs(bufs: seq<OutBuffer>, allowEmpty: bool, i: nat)
    requires i <= |bufs| && (i < |bufs| ==> Bad(bufs[i], allowEmpty))
    requires forall j :: 0 <= j < i ==> !Bad(bufs[j], allowEmpty)
    ensures FirstBad(bufs, allowEmpty) == i
  {
    if i > 0 { FirstBadIs(bufs[1..], allowEmpty, i - 1); }
  }

  /** The streams of the buffers that are not empty. */
  function Streams(bufs: seq<OutBuffer>): set<StreamId> {
    set i | 0 <= i < |bufs| && !bufs[i].empty :: bufs[i].stream
  }

  lemma {:induction false} StreamsMore(bufs: seq<OutBuffer>, b: OutBuffer)
    ensures Streams(bufs + [b]) == Streams(bufs) + if b.empty then {} else {b.stream}
  {
    var more := bufs + [b];
    forall s ensures s in Streams(more) <==> s in Streams(bufs) || (!b.empty && s == b.stream) {
      if s in Streams(bufs) {
        var i :| 0 <= i < |bufs| && !bufs[i].empty && bufs[i].stream == s;
        assert more[i] == bufs[i];
      }
      if !b.empty && s == b.stream { assert more[|bufs|] == b; }
    }
  }

  /** The streams that get an entry: those up to the first failure, itself included. */
  function Touched(bufs: seq<OutBuffer>, allowEmpty: bool): set<StreamId> {
    var n := FirstBad(bufs, allowEmpty);
    Streams(if n < |bufs| then bufs[..n + 1] else bufs)
  }

  /** The streams that a buffer is cached for: those before the first failure. */
  function Filled(bufs: seq<OutBuffer>, allowEmpty: bool): set<StreamId> {
    Streams(bufs[..FirstBad(bufs, allowEmpty)])
  }

  function Named(bufs: seq<OutBuffer>): set<StreamId> {
    set i | 0 <= i < |bufs| :: bufs[i].stream
  }

  /** Only an accepted request enters its streams into mStreamMap, with operator[]. fences: every
      acquire fence can be imported. */
  predicate Accepted(bufs: seq<OutBuffer>, allowEmpty: bool, fences: bool) {
    FirstBad(bufs, allowEmpty) == |bufs| && fences
  }

  function StreamsAfter(keys: set<StreamId>, bufs: seq<OutBuffer>, allowEmpty: bool, fences: bool)
    : set<StreamId>
  {
    if Accepted(bufs, allowEmpty, fences) then keys + Named(bufs) else keys
  }

  /** No buffer of index below n is for a stream outside keys, but for empty ones. */
  ghost predicate KnownUpTo(keys: set<StreamId>, bufs: seq<OutBuffer>, n: nat) {
    forall i :: 0 <= i < n && i < |bufs| && !bufs[i].empty ==> bufs[i].stream in keys
  }

  /** Every buffer is for a stream of keys, or for one that comes with a buffer. */
  ghost predicate EachHasBuffer(keys: set<StreamId>, bufs: seq<OutBuffer>) {
    forall i :: 0 <= i < |bufs| ==>
      bufs[i].stream in keys
      || exists j :: 0 <= j < |bufs| && !bufs[j].empty && bufs[j].stream == bufs[i].stream
  }

  lemma {:induction false} StreamsUpTo(keys: set<StreamId>, bufs: seq<OutBuffer>, n: nat)
    requires n <= |bufs|
    ensures Streams(bufs[..n]) <= keys <==> KnownUpTo(keys, bufs, n)
  {
    if KnownUpTo(keys, bufs, n) {
      forall s | s in Streams(bufs[..n]) ensures s in keys {
        var i :| 0 <= i < n && !bufs[..n][i].empty && bufs[..n][i].stream == s;
        assert bufs[i].stream in keys;
      }
    }
    if Streams(bufs[..n]) <= keys {
      forall i | 0 <= i < n && i < |bufs| && !bufs[i].empty ensures bufs[i].stream in keys {
        assert bufs[..n][i].stream in Streams(bufs[..n]);
      }
    }
  }

  lemma {:induction false} NamedWithBuffer(keys: set<StreamId>, bufs: seq<OutBuffer>)
    ensures Named(bufs) <= keys + Streams(bufs) <==> EachHasBuffer(keys, bufs)
    ensures Streams(bufs) <= Named(bufs)
  {
    if Named(bufs) <= keys + Streams(bufs) {
      forall i | 0 <= i < |bufs|
        ensures bufs[i].stream in keys
                || exists j :: 0 <= j < |bufs| && !bufs[j].empty && bufs[j].stream == bufs[i].stream
      {
        assert bufs[i].stream in Named(bufs);
      }
    }
  }

  /** With both maps over the same streams before a request, they are so after it exactly when, if
      it is accepted, each stream it names is known or comes with a buffer, and, if it is refused,
      each buffer up to the one that fails is empty or for a known stream. */
  lemma {:induction false} DomainsEqualExactly(keys: set<StreamId>, bufs: seq<OutBuffer>,
                                               allowEmpty: bool, fences: bool)
    ensures StreamsAfter(keys, bufs, allowEmpty, fences) == keys + Touched(bufs, allowEmpty)
       <==> if Accepted(bufs, allowEmpty, fences) then EachHasBuffer(keys, bufs)
            else KnownUpTo(keys, bufs, FirstBad(bufs, allowEmpty) + 1)
  {
    var n := FirstBad(bufs, allowEmpty);
    if n < |bufs| {
      StreamsUpTo(keys, bufs, n + 1);
    } else {
      AllTouched(keys, bufs);
    }
  }

  lemma {:induction false} AllTouched(keys: set<StreamId>, bufs: seq<OutBuffer>)
    ensures keys + Named(bufs) == keys + Streams(bufs) <==> EachHasBuffer(keys, bufs)
    ensures keys == keys + Streams(bufs) <==> KnownUpTo(keys, bufs, |bufs| + 1)
  {
    NamedWithBuffer(keys, bufs);
    SameUnion(keys, Named(bufs), Streams(bufs));
    SameUnion(keys, Streams(bufs), {});
    StreamsUpTo(keys, bufs, |bufs|);
    assert bufs[..|bufs|] == bufs;
    assert keys + {} == keys;
    assert KnownUpTo(keys, bufs, |bufs| + 1) == KnownUpTo(keys, bufs, |bufs|);
  }

  lemma {:induction false} SameUnion(keys: set<StreamId>, more: set<StreamId>, some: set<StreamId>)
    requires some <= more
    ensures keys + more == keys + some <==> more <= keys + some
  {
  }

  /** The later .at lookups stay safe exactly when the request is refused or each stream it names
      is known or comes with a buffer. */
  lemma {:induction false} LookupsStaySafeExactly(keys: set<StreamId>, bufs: seq<OutBuffer>,
                                                  allowEmpty: bool, fences: bool)
    ensures StreamsAfter(keys, bufs, allowEmpty, fences) <= keys + Touched(bufs, allowEmpty)
       <==> !Accepted(bufs, allowEmpty, fences) || EachHasBuffer(keys, bufs)
  {
    NamedWithBuffer(keys, bufs);
  }

  /** And every buffer it has cached is freed when the session closes, exactly when it is accepted
      or each buffer before the one that fails is empty or for a known stream: by
      CloseFreesAllExactly only the buffers of streams in the stream map are freed. */
  lemma {:induction false} FreesStayCompleteExactly(keys: set<StreamId>, bufs: seq<OutBuffer>,
                                                    allowEmpty: bool, fences: bool)
    ensures Filled(bufs, allowEmpty) <= StreamsAfter(keys, bufs, allowEmpty, fences)
       <==> Accepted(bufs, allowEmpty, fences)
            || KnownUpTo(keys, bufs, FirstBad(bufs, allowEmpty))
  {
    NamedWithBuffer(keys, bufs);
    StreamsUpTo(keys, bufs, FirstBad(bufs, allowEmpty));
    if Accepted(bufs, allowEmpty, fences) { assert bufs[..|bufs|] == bufs; }
  }

  /** Naming only known streams keeps the two domains equal and complete. */
  lemma {:induction false} KnownStreamsKeepDomains(keys: set<StreamId>, bufs: seq<OutBuffer>,
                                                   allowEmpty: bool, fences: bool)
    requires Named(bufs) <= keys
    ensures StreamsAfter(keys, bufs, allowEmpty, fences) == keys + Touched(bufs, allowEmpty) == keys
    ensures Filled(bufs, allowEmpty) <= keys
  {
    forall i | 0 <= i < |bufs| ensures bufs[i].stream in keys {
      assert bufs[i].stream in Named(bufs);
    }
    DomainsEqualExactly(keys, bufs, allowEmpty, fences);
    FreesStayCompleteExactly(keys, bufs, allowEmpty, fences);
  }
}
