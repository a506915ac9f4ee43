/** The stream table and the buffer cache of the device session and of an offline session, as
    code. */
module BufferSessions {
  import opened BufferOwnership

  datatype Stream = Stream(id: StreamId, offline: bool)  // offline: a JPEG (BLOB) stream

  datatype Option<T> = None | Some(value: T)

  /** Each handle is in one place of the cache. */
  ghost predicate Distinct(cache: Cache) {
    forall s, b, t, c ::
      (s in cache && b in cache[s] && t in cache && c in cache[t] && cache[s][b] == cache[t][c])
      ==> s == t && b == c
  }

  function Ids(streams: seq<Stream>): set<StreamId> {
    set i | 0 <= i < |streams| :: streams[i].id
  }

  function Pairs(caches: seq<(StreamId, BufferId)>): set<(StreamId, BufferId)> {
    set i | 0 <= i < |caches| :: caches[i]
  }

  function Elements(ids: seq<StreamId>): set<StreamId> {
    set i | 0 <= i < |ids| :: ids[i]
  }

  method Pick(ids: set<StreamId>) returns (id: StreamId)
    requires ids != {}
    ensures id in ids
  {
    if forall i: StreamId :: i !in ids { assert false; }
    id :| id in ids;
  }

  class HandleImporter {
    var imports: nat
    var freed: multiset<Handle>

    constructor ()
      ensures imports == 0 && freed == multiset{}
    {
      imports, freed := 0, multiset{};
    }

    /** ok is what the mapper answers. */
    method ImportBuffer(ok: bool) returns (handle: Option<Handle>)
      modifies this
      ensures freed == old(freed)
      ensures !ok ==> handle == None && imports == old(imports)
      ensures ok ==> handle == Some(old(imports)) && imports == old(imports) + 1
    {
      if !ok { return None; }
      handle := Some(imports);
      imports := imports + 1;
    }

    method FreeBuffer(handle: Handle)
      modifies this`freed
      ensures freed == old(freed) + multiset{handle}
    {
      freed := freed + multiset{handle};
    }
  }

  /** What both kinds of session have: a table of streams, and the buffers imported for them. */
  class Session {
    var mStreamMap: map<StreamId, Stream>
    var mCirculatingBuffers: Cache
    var mClosed: bool
    const sHandleImporter: HandleImporter

    /** What the .at lookups rely on, and what makes the frees distinct. */
    ghost predicate Valid()
      reads this
    {
      && Distinct(mCirculatingBuffers)
      && (!mClosed ==> mStreamMap.Keys == mCirculatingBuffers.Keys)
      && (mClosed ==> mCirculatingBuffers == map[])
    }

    ghost function AsOwner(): Owner
      reads this
    {
      Owner(mStreamMap.Keys, mCirculatingBuffers, mClosed)
    }

    /** The world of BufferOwnership, as long as there is no other session. */
    ghost function Alone(): World
      reads this, sHandleImporter
    {
      World([AsOwner()], sHandleImporter.imports, sHandleImporter.freed, {})
    }

    constructor (streams: map<StreamId, Stream>, cache: Cache, importer: HandleImporter)
      ensures mStreamMap == streams && mCirculatingBuffers == cache && !mClosed
      ensures sHandleImporter == importer
    {
      mStreamMap, mCirculatingBuffers, mClosed := streams, cache, false;
      sHandleImporter := importer;
    }

    /** importBufferImpl for a stream of the session. hasHandle: the client sent a handle. */
    method ImportBufferImpl(stream: StreamId, id: BufferId, hasHandle: bool, ok: bool,
                            allowEmpty: bool) returns (success: bool)
      requires Distinct(mCirculatingBuffers)
      requires forall s, b :: s in mCirculatingBuffers && b in mCirculatingBuffers[s]
                 ==> mCirculatingBuffers[s][b] < sHandleImporter.imports
      modifies this`mCirculatingBuffers, sHandleImporter
      ensures Distinct(mCirculatingBuffers) && sHandleImporter.freed == old(sHandleImporter.freed)
      ensures !hasHandle && id == 0 ==>
                success == allowEmpty && mCirculatingBuffers == old(mCirculatingBuffers)
      ensures hasHandle || id != 0 ==>
                var cache := old(mCirculatingBuffers);
                var known := Buffers(cache, stream);
                && (id in known ==> success && mCirculatingBuffers == cache[stream := known])
                && (id !in known && hasHandle && ok ==>
                      success && mCirculatingBuffers
                                 == Cached(cache, stream, id, old(sHandleImporter.imports)))
                && (id !in known && !(hasHandle && ok) ==>
                      !success && mCirculatingBuffers == cache[stream := known])
      ensures hasHandle || id != 0 ==>
                sHandleImporter.imports == old(sHandleImporter.imports)
                  + if id !in Buffers(old(mCirculatingBuffers), stream) && hasHandle && ok
                    then 1 else 0
      ensures !hasHandle && id == 0 ==> sHandleImporter.imports == old(sHandleImporter.imports)
      ensures success && (hasHandle || id != 0) ==>
                && stream in mCirculatingBuffers && id in mCirculatingBuffers[stream]
                && mCirculatingBuffers[stream][id]
                   == if stream in old(mCirculatingBuffers)
                         && id in old(mCirculatingBuffers)[stream]
                      then old(mCirculatingBuffers)[stream][id] else old(sHandleImporter.imports)
    {
      if !hasHandle && id == 0 { return allowEmpty; }
      OneMoreDistinct(mCirculatingBuffers, stream, id, sHandleImporter.imports);
      if stream !in mCirculatingBuffers {
        mCirculatingBuffers := mCirculatingBuffers[stream := map[]];
      }
      assert mCirculatingBuffers == mCirculatingBuffers[stream := mCirculatingBuffers[stream]];
      if id !in mCirculatingBuffers[stream] {
        if !hasHandle { return false; }
        var handle := sHandleImporter.ImportBuffer(ok);
        if handle.None? { return false; }
        var cbs: map<BufferId, Handle> := mCirculatingBuffers[stream][id := handle.value];
        mCirculatingBuffers := mCirculatingBuffers[stream := cbs];
      }
      success := true;
    }

    /** importBufferLocked: an import, or no more than an entry for the stream. */
    method ImportBuffer(stream: StreamId, id: BufferId, hasHandle: bool, ok: bool,
                        allowEmpty: bool) returns (success: bool)
      requires Distinct(mCirculatingBuffers) && !mClosed
      requires forall s, b :: s in mCirculatingBuffers && b in mCirculatingBuffers[s]
                 ==> mCirculatingBuffers[s][b] < sHandleImporter.imports
      modifies this`mCirculatingBuffers, sHandleImporter
      ensures Distinct(mCirculatingBuffers)
      ensures success && (hasHandle || id != 0) ==>
                stream in mCirculatingBuffers && id in mCirculatingBuffers[stream]
      ensures var known := Buffers(old(mCirculatingBuffers), stream);
              if !hasHandle && id == 0 then success == allowEmpty && Alone() == old(Alone())
              else if hasHandle && ok && id !in known then
                success && Alone() == Apply(old(Alone()), Import(0, stream, id))
              else
                success == (id in known) && Alone() == Apply(old(Alone()), Touch(0, stream))
    {
      ExtendedByOne(mCirculatingBuffers, stream);
      success := ImportBufferImpl(stream, id, hasHandle, ok, allowEmpty);
    }

    /** The stream's handles are freed, each once, and its entry goes. */
    method CleanupBuffersLocked(id: StreamId)
      requires Distinct(mCirculatingBuffers)
      requires id in mCirculatingBuffers  // mCirculatingBuffers.at(id)
      modifies this`mCirculatingBuffers, sHandleImporter`freed
      ensures mCirculatingBuffers == old(mCirculatingBuffers) - {id}
      ensures sHandleImporter.freed
           == old(sHandleImporter.freed) + multiset(Under(old(mCirculatingBuffers), {id}))
    {
      var buffers := mCirculatingBuffers[id];
      var left := buffers.Keys;
      while left != {}
        invariant left <= buffers.Keys && mCirculatingBuffers == old(mCirculatingBuffers)
        invariant sHandleImporter.freed == old(sHandleImporter.freed)
                    + multiset(set b | b in buffers && b !in left :: buffers[b])
      {
        var b :| b in left;
        ghost var before := set c | c in buffers && c !in left :: buffers[c];
        sHandleImporter.FreeBuffer(buffers[b]);
        left := left - {b};
        ghost var after := set c | c in buffers && c !in left :: buffers[c];
        assert after == before + {buffers[b]};
        assert buffers[b] !in before by {
          assert forall c :: c in buffers && buffers[c] == buffers[b] ==> c == b;
        }
        assert multiset(after) == multiset(before) + multiset{buffers[b]};
      }
      assert (set b | b in buffers && b !in left :: buffers[b])
          == Under(old(mCirculatingBuffers), {id});
      mCirculatingBuffers := mCirculatingBuffers - {id};
    }

    /** Cleaning up several streams one by one frees what is under them all. */
    method CleanupAll(ids: set<StreamId>)
      requires Distinct(mCirculatingBuffers) && ids <= mCirculatingBuffers.Keys
      modifies this`mCirculatingBuffers, sHandleImporter`freed
      ensures mCirculatingBuffers == old(mCirculatingBuffers) - ids
      ensures sHandleImporter.freed
           == old(sHandleImporter.freed) + multiset(Under(old(mCirculatingBuffers), ids))
    {
      ghost var cache, freed := mCirculatingBuffers, sHandleImporter.freed;
      var left := ids;
      assert Under(cache, {}) == {};
      assert cache - {} == cache;
      while left != {}
        invariant left <= ids && mCirculatingBuffers == cache - (ids - left)
        invariant sHandleImporter.freed == freed + multiset(Under(cache, ids - left))
      {
        left := CleanupOne(ids, left, cache, freed);
      }
      assert ids - left == ids;
    }

    /** One turn of the loop above. */
    method CleanupOne(ids: set<StreamId>, left: set<StreamId>, ghost cache: Cache,
                      ghost freed: multiset<Handle>) returns (rest: set<StreamId>)
      requires Distinct(cache) && ids <= cache.Keys && left <= ids && left != {}
      requires mCirculatingBuffers == cache - (ids - left)
      requires sHandleImporter.freed == freed + multiset(Under(cache, ids - left))
      modifies this`mCirculatingBuffers, sHandleImporter`freed
      ensures rest < left && mCirculatingBuffers == cache - (ids - rest)
      ensures sHandleImporter.freed == freed + multiset(Under(cache, ids - rest))
    {
      var id := Pick(left);
      ghost var done := ids - left;
      CleanupBuffersLocked(id);
      UnderMore(cache, done, id);
      rest := left - {id};
      assert ids - rest == done + {id};
      assert cache - done - {id} == cache - (done + {id});
    }

    /** Caches the client no longer wants; what is not cached is skipped. */
    method UpdateBufferCaches(cachesToRemove: seq<(StreamId, BufferId)>)
      requires Distinct(mCirculatingBuffers)
      modifies this`mCirculatingBuffers, sHandleImporter`freed
      ensures mCirculatingBuffers
           == WithoutCaches(old(mCirculatingBuffers), Pairs(cachesToRemove))
      ensures sHandleImporter.freed == old(sHandleImporter.freed)
                + multiset(Removed(old(mCirculatingBuffers), Pairs(cachesToRemove)))
      ensures Alone() == Apply(old(Alone()), RemoveCaches(Pairs(cachesToRemove)))
    {
      RemoveEach(cachesToRemove);
    }

    method RemoveEach(cachesToRemove: seq<(StreamId, BufferId)>)
      requires Distinct(mCirculatingBuffers)
      modifies this`mCirculatingBuffers, sHandleImporter`freed
      ensures mCirculatingBuffers
           == WithoutCaches(old(mCirculatingBuffers), Pairs(cachesToRemove))
      ensures sHandleImporter.freed == old(sHandleImporter.freed)
                + multiset(Removed(old(mCirculatingBuffers), Pairs(cachesToRemove)))
    {
      ghost var cache := mCirculatingBuffers;
      RemovedNone(cache);
      for k := 0 to |cachesToRemove|
        invariant mCirculatingBuffers == WithoutCaches(cache, Pairs(cachesToRemove[..k]))
        invariant sHandleImporter.freed == old(sHandleImporter.freed)
                    + multiset(Removed(cache, Pairs(cachesToRemove[..k])))
      {
        var stream, id := cachesToRemove[k].0, cachesToRemove[k].1;
        RemovedMore(cache, cachesToRemove, k);
        if stream in mCirculatingBuffers && id in mCirculatingBuffers[stream] {
          sHandleImporter.FreeBuffer(mCirculatingBuffers[stream][id]);
          var cbs: map<BufferId, Handle> := mCirculatingBuffers[stream] - {id};
          mCirculatingBuffers := mCirculatingBuffers[stream := cbs];
        }
      }
      assert cachesToRemove[..|cachesToRemove|] == cachesToRemove;
    }

    /** New streams get an entry in both maps; known ones keep theirs. */
    method AddStreams(streams: seq<Stream>)
      requires mStreamMap.Keys == mCirculatingBuffers.Keys
      modifies this`mStreamMap, this`mCirculatingBuffers
      ensures mStreamMap.Keys == mCirculatingBuffers.Keys
      ensures mStreamMap.Keys == old(mStreamMap).Keys + Ids(streams)
      ensures forall id :: id in old(mStreamMap) ==> mStreamMap[id] == old(mStreamMap)[id]
      ensures forall id :: id in mCirculatingBuffers ==>
                mCirculatingBuffers[id] == Buffers(old(mCirculatingBuffers), id)
    {
      for k := 0 to |streams|
        invariant mStreamMap.Keys == mCirculatingBuffers.Keys
        invariant mStreamMap.Keys == old(mStreamMap).Keys + Ids(streams[..k])
        invariant forall id :: id in old(mStreamMap) ==> mStreamMap[id] == old(mStreamMap)[id]
        invariant forall id :: id in mCirculatingBuffers ==>
                    mCirculatingBuffers[id] == Buffers(old(mCirculatingBuffers), id)
      {
        assert Ids(streams[..k + 1]) == Ids(streams[..k]) + {streams[k].id};
        if streams[k].id !in mStreamMap {
          mStreamMap := mStreamMap[streams[k].id := streams[k]];
          mCirculatingBuffers := mCirculatingBuffers[streams[k].id := map[]];
        }
      }
      assert streams[..|streams|] == streams;
    }

    /** The part of configureStreams that brings the two maps up to date. */
    method ConfigureStreams(streams: seq<Stream>)
      requires Valid() && !mClosed
      modifies this`mStreamMap, this`mCirculatingBuffers, sHandleImporter`freed
      ensures Valid() && mStreamMap.Keys == Ids(streams)
      ensures forall id :: id in Ids(streams) && id in old(mStreamMap)
                ==> mStreamMap[id] == old(mStreamMap)[id]
      ensures Alone() == Apply(old(Alone()), Configure(Ids(streams)))
    {
      UpdateMaps(streams);
    }

    method UpdateMaps(streams: seq<Stream>)
      requires Valid() && !mClosed
      modifies this`mStreamMap, this`mCirculatingBuffers, sHandleImporter`freed
      ensures Valid() && mStreamMap.Keys == Ids(streams)
      ensures forall id :: id in Ids(streams) && id in old(mStreamMap)
                ==> mStreamMap[id] == old(mStreamMap)[id]
      ensures var gone := old(mStreamMap).Keys - Ids(streams);
              && mCirculatingBuffers == Extended(old(mCirculatingBuffers) - gone,
                                                 Ids(streams) - old(mStreamMap).Keys)
              && sHandleImporter.freed == old(sHandleImporter.freed)
                   + multiset(Under(old(mCirculatingBuffers), gone))
    {
      ghost var cache := mCirculatingBuffers;
      AddStreams(streams);
      var gone := mStreamMap.Keys - Ids(streams);
      AddedKeeps(cache, mCirculatingBuffers, Ids(streams), gone);
      CleanupAll(gone);
      mStreamMap := mStreamMap - gone;
    }

    method Close()
      requires Valid()
      modifies this, sHandleImporter`freed
      ensures Valid() && mClosed && mCirculatingBuffers == map[]
      ensures mStreamMap == old(mStreamMap)
      ensures sHandleImporter.freed == if old(mClosed) then old(sHandleImporter.freed)
                else old(sHandleImporter.freed)
                       + multiset(Under(old(mCirculatingBuffers), old(mStreamMap).Keys))
      ensures Alone() == Apply(old(Alone()), BufferOwnership.Close(0))
    {
      if !mClosed { FreeAll(); }
    }

    /** The close of a session that is open. */
    method FreeAll()
      requires Valid() && !mClosed
      modifies this, sHandleImporter`freed
      ensures Valid() && mStreamMap == old(mStreamMap)
      ensures AsOwner() == Owner(old(mStreamMap).Keys, map[], true)
      ensures sHandleImporter.freed == old(sHandleImporter.freed)
                + multiset(Under(old(AsOwner()).cache, old(AsOwner()).streams))
    {
      CleanupAll(mStreamMap.Keys);
      mClosed := true;
    }

    /** An unknown id is added to the stream table, and not to the cache: exactly then the
        session is no longer valid. */
    method SupportOfflineLocked(id: StreamId) returns (ok: bool)
      requires Valid() && !mClosed
      modifies this`mStreamMap
      ensures ok == (id in old(mStreamMap) && old(mStreamMap)[id].offline)
      ensures ok ==> mStreamMap == old(mStreamMap)
      ensures mStreamMap.Keys == old(mStreamMap).Keys + {id}
      ensures forall s :: s in old(mStreamMap) ==> mStreamMap[s] == old(mStreamMap)[s]
      ensures Valid() <==> id in old(mStreamMap)
      ensures Alone() == Apply(old(Alone()), Mention({id}))
    {
      if id !in mStreamMap {
        mStreamMap := mStreamMap[id := Stream(0, false)];
      }
      ok := mStreamMap[id].offline;
    }

    /** The kept streams leave both maps, with their buffers. */
    method TakeStreams(keep: seq<StreamId>)
      returns (streams: map<StreamId, Stream>, cache: Cache)
      requires forall i :: 0 <= i < |keep| ==> keep[i] in mStreamMap && keep[i] in mCirculatingBuffers
      requires forall i, j :: 0 <= i < j < |keep| ==> keep[i] != keep[j]
      modifies this`mStreamMap, this`mCirculatingBuffers
      ensures mStreamMap == old(mStreamMap) - Elements(keep)
      ensures mCirculatingBuffers == old(mCirculatingBuffers) - Elements(keep)
      ensures streams == Part(old(mStreamMap), Elements(keep))
      ensures cache == Part(old(mCirculatingBuffers), Elements(keep))
    {
      cache, streams := map[], map[];
      for k := 0 to |keep|
        invariant mStreamMap == old(mStreamMap) - Elements(keep[..k])
        invariant mCirculatingBuffers == old(mCirculatingBuffers) - Elements(keep[..k])
        invariant cache == Part(old(mCirculatingBuffers), Elements(keep[..k]))
        invariant streams == Part(old(mStreamMap), Elements(keep[..k]))
      {
        assert Elements(keep[..k + 1]) == Elements(keep[..k]) + {keep[k]};
        assert keep[k] !in Elements(keep[..k]);
        PartMore(old(mStreamMap), Elements(keep[..k]), keep[k]);
        PartMore(old(mCirculatingBuffers), Elements(keep[..k]), keep[k]);
        cache := cache[keep[k] := mCirculatingBuffers[keep[k]]];
        mCirculatingBuffers := mCirculatingBuffers - {keep[k]};
        streams := streams[keep[k] := mStreamMap[keep[k]]];
        mStreamMap := mStreamMap - {keep[k]};
      }
      assert keep[..|keep|] == keep;
    }

    /** What stays behind is freed, and both maps are cleared. */
    method EmptyOut()
      requires Valid() && !mClosed
      modifies this`mStreamMap, this`mCirculatingBuffers, sHandleImporter`freed
      ensures Valid() && AsOwner() == Owner({}, map[], false)
      ensures sHandleImporter.freed == old(sHandleImporter.freed)
                + multiset(Under(old(AsOwner()).cache, old(AsOwner()).streams))
    {
      CleanupAll(mStreamMap.Keys);
      mCirculatingBuffers, mStreamMap := map[], map[];
    }

    /** The hand-over of the caches. init: the offline session initialises; keepSession: there
        are requests for it. One that is not handed out is destroyed, which closes it. */
    method SwitchToOffline(keep: seq<StreamId>, init: bool, keepSession: bool)
      returns (offline: Session)
      requires Valid() && !mClosed
      requires forall i :: 0 <= i < |keep| ==> keep[i] in mStreamMap
      requires forall i, j :: 0 <= i < j < |keep| ==> keep[i] != keep[j]
      modifies this`mStreamMap, this`mCirculatingBuffers, sHandleImporter`freed
      ensures Valid() && offline.Valid() && fresh(offline)
      ensures offline.sHandleImporter == sHandleImporter
      ensures World([AsOwner(), offline.AsOwner()], sHandleImporter.imports,
                    sHandleImporter.freed, {})
           == Apply(old(Alone()),
                    BufferOwnership.SwitchToOffline(Elements(keep), init, keepSession))
    {
      ghost var ids := Elements(keep);
      assert ids <= mStreamMap.Keys;
      offline := HandOver(keep, init, keepSession);
      SwitchOfOne(old(AsOwner()), sHandleImporter.imports, old(sHandleImporter.freed),
                  ids, init, keepSession);
    }

    /** The kept streams and their buffers become those of a new session. */
    method MakeOffline(keep: seq<StreamId>) returns (offline: Session)
      requires Valid() && !mClosed
      requires forall i :: 0 <= i < |keep| ==> keep[i] in mStreamMap
      requires forall i, j :: 0 <= i < j < |keep| ==> keep[i] != keep[j]
      modifies this`mStreamMap, this`mCirculatingBuffers
      ensures Valid() && offline.Valid() && fresh(offline)
      ensures offline.sHandleImporter == sHandleImporter
      ensures var o, ids := old(AsOwner()), Elements(keep);
              && AsOwner() == Owner(o.streams - ids, o.cache - ids, false)
              && offline.AsOwner() == Owner(ids, Part(o.cache, ids), false)
    {
      PartsKeepHandles(mCirculatingBuffers, Elements(keep));
      var streamInfos, circulatingBuffers := TakeStreams(keep);
      offline := new Session(streamInfos, circulatingBuffers, sHandleImporter);
    }

    method HandOver(keep: seq<StreamId>, init: bool, keepSession: bool)
      returns (offline: Session)
      requires Valid() && !mClosed
      requires forall i :: 0 <= i < |keep| ==> keep[i] in mStreamMap
      requires forall i, j :: 0 <= i < j < |keep| ==> keep[i] != keep[j]
      modifies this`mStreamMap, this`mCirculatingBuffers, sHandleImporter`freed
      ensures Valid() && offline.Valid() && fresh(offline)
      ensures offline.sHandleImporter == sHandleImporter
      ensures AsOwner() == OnlineAfter(old(AsOwner()), Elements(keep), init)
      ensures offline.AsOwner()
           == OfflineAfter(old(AsOwner()), Elements(keep), init && keepSession)
      ensures sHandleImporter.freed == old(sHandleImporter.freed)
                + FreedBySwitch(old(AsOwner()), Elements(keep), init, init && keepSession)
    {
      PartsKeepHandles(mCirculatingBuffers, Elements(keep));
      offline := MakeOffline(keep);
      SettleOnline(init);
      offline.SettleOffline(init && keepSession);
    }

    method SettleOnline(init: bool)
      requires Valid() && !mClosed
      modifies this`mStreamMap, this`mCirculatingBuffers, sHandleImporter`freed
      ensures Valid() && AsOwner() == if init then Owner({}, map[], false) else old(AsOwner())
      ensures sHandleImporter.freed == old(sHandleImporter.freed)
                + if init then multiset(Under(old(AsOwner()).cache, old(AsOwner()).streams))
                  else multiset{}
    {
      if init { EmptyOut(); }
    }

    /** A session that is not handed out is destroyed, which closes it. */
    method SettleOffline(handedOut: bool)
      requires Valid() && !mClosed
      modifies this, sHandleImporter`freed
      ensures Valid()
      ensures AsOwner() == if handedOut then old(AsOwner())
                           else Owner(old(mStreamMap).Keys, map[], true)
      ensures sHandleImporter.freed == old(sHandleImporter.freed)
                + if handedOut then multiset{}
                  else multiset(Under(old(AsOwner()).cache, old(AsOwner()).streams))
    {
      if !handedOut { FreeAll(); }
    }
  }

  /** The entries of the given keys. */
  function Part<V>(m: map<StreamId, V>, keys: set<StreamId>): map<StreamId, V> {
    map s | s in m && s in keys :: m[s]
  }

  lemma {:induction false} PartMore<V>(m: map<StreamId, V>, keys: set<StreamId>, s: StreamId)
    requires s in m && s !in keys
    ensures m - keys - {s} == m - (keys + {s})
    ensures Part(m, keys + {s}) == Part(m, keys)[s := (m - keys)[s]]
  {
  }

  function OnlineAfter(o: Owner, keep: set<StreamId>, init: bool): Owner {
    if init then Owner({}, map[], false) else Owner(o.streams - keep, o.cache - keep, false)
  }

  function OfflineAfter(o: Owner, keep: set<StreamId>, handedOut: bool): Owner {
    Owner(keep, if handedOut then Part(o.cache, keep) else map[], !handedOut)
  }

  function FreedBySwitch(o: Owner, keep: set<StreamId>, init: bool, handedOut: bool)
    : multiset<Handle>
  {
    (if init then multiset(Under(o.cache, o.streams - keep)) else multiset{})
    + if handedOut then multiset{} else multiset(Under(o.cache, keep))
  }

  /** The switch of a lone session, spelled out. */
  lemma {:induction false} SwitchOfOne(o: Owner, imports: nat, freed: multiset<Handle>,
                                       keep: set<StreamId>, init: bool, returned: bool)
    requires o.streams == o.cache.Keys && !o.closed && keep <= o.streams
    requires Distinct(o.cache)
    ensures Apply(World([o], imports, freed, {}), SwitchToOffline(keep, init, returned))
         == World([OnlineAfter(o, keep, init), OfflineAfter(o, keep, init && returned)], imports,
                  freed + FreedBySwitch(o, keep, init, init && returned), {})
  {
    if !init {
      SwitchFails(o, imports, freed, keep, returned);
    } else {
      SwitchWorks(o, imports, freed, keep, returned);
    }
  }

  lemma {:induction false} SwitchFails(o: Owner, imports: nat, freed: multiset<Handle>,
                                       keep: set<StreamId>, returned: bool)
    requires o.streams == o.cache.Keys && !o.closed && keep <= o.streams && Distinct(o.cache)
    ensures Apply(World([o], imports, freed, {}), SwitchToOffline(keep, false, returned))
         == World([OnlineAfter(o, keep, false), OfflineAfter(o, keep, false)], imports,
                  freed + FreedBySwitch(o, keep, false, false), {})
  {
    MovedOne(o, imports, freed, keep);
    PartsKeepHandles(o.cache, keep);
    ClosedOne(Moved(World([o], imports, freed, {}), keep), Part(o.cache, keep), keep);
  }

  lemma {:induction false} SwitchWorks(o: Owner, imports: nat, freed: multiset<Handle>,
                                       keep: set<StreamId>, returned: bool)
    requires o.streams == o.cache.Keys && !o.closed && keep <= o.streams && Distinct(o.cache)
    ensures Apply(World([o], imports, freed, {}), SwitchToOffline(keep, true, returned))
         == World([OnlineAfter(o, keep, true), OfflineAfter(o, keep, returned)], imports,
                  freed + FreedBySwitch(o, keep, true, returned), {})
  {
    EmptiedOne(o, imports, freed, keep);
    UnderSame(Part(o.cache, keep), o.cache, keep);
    var split := Moved(World([o], imports, freed, {}), keep);
    var emptied := Cleared(DropStreams(split, 0, split.owners[0].streams));
    if !returned { ClosedOne(emptied, Part(o.cache, keep), keep); }
  }

  lemma {:induction false} EmptiedOne(o: Owner, imports: nat, freed: multiset<Handle>,
                                      keep: set<StreamId>)
    requires o.streams == o.cache.Keys && keep <= o.streams && Distinct(o.cache)
    ensures var split := Moved(World([o], imports, freed, {}), keep);
            Cleared(DropStreams(split, 0, split.owners[0].streams))
            == World([Owner({}, map[], false), Owner(keep, Part(o.cache, keep), false)], imports,
                     freed + multiset(Under(o.cache, o.streams - keep)), {})
  {
    MovedOne(o, imports, freed, keep);
    PartsKeepHandles(o.cache, keep);
    ClearedOne(Moved(World([o], imports, freed, {}), keep));
  }

  lemma {:induction false} MovedOne(o: Owner, imports: nat, freed: multiset<Handle>,
                                    keep: set<StreamId>)
    ensures Moved(World([o], imports, freed, {}), keep)
         == World([Owner(o.streams - keep, o.cache - keep, false),
                   Owner(keep, Part(o.cache, keep), false)], imports, freed, {})
  {
    var rest, moved := Owner(o.streams - keep, o.cache - keep, false), Part(o.cache, keep);
    assert moved == map s | s in keep && s in o.cache :: o.cache[s];
    assert [o][0 := rest] + [Owner(keep, moved, false)] == [rest, Owner(keep, moved, false)];
  }

  /** Emptying a session whose cache is of its streams leaks nothing. */
  lemma {:induction false} ClearedOne(w: World)
    requires w.owners != [] && w.owners[0].cache.Keys == w.owners[0].streams
    ensures var o := w.owners[0];
            Cleared(DropStreams(w, 0, o.streams))
            == w.(owners := w.owners[0 := Owner({}, map[], false)],
                  freed := w.freed + multiset(Under(o.cache, o.streams)))
  {
    var o := w.owners[0];
    assert o.cache - o.streams == map[];
    assert Under(map[], {}) == {};
  }

  lemma {:induction false} ClosedOne(w: World, cache: Cache, streams: set<StreamId>)
    requires |w.owners| == 2 && w.owners[1] == Owner(streams, cache, false) && cache.Keys <= streams
    ensures CloseOwner(w, 1)
         == w.(owners := [w.owners[0], Owner(streams, map[], true)],
               freed := w.freed + multiset(Under(cache, streams)))
  {
    assert cache - streams == map[];
  }

  lemma {:induction false} PartsKeepHandles(cache: Cache, keep: set<StreamId>)
    requires Distinct(cache)
    ensures Distinct(Part(cache, keep)) && Distinct(cache - keep)
    ensures Under(Part(cache, keep), keep) == Under(cache, keep)
    ensures Under(cache - keep, cache.Keys - keep) == Under(cache, cache.Keys - keep)
  {
    UnderSame(Part(cache, keep), cache, keep);
    UnderSame(cache - keep, cache, cache.Keys - keep);
  }

  lemma {:induction false} UnderSame(a: Cache, b: Cache, streams: set<StreamId>)
    requires forall s :: s in streams ==> (s in a <==> s in b)
    requires forall s :: s in streams && s in a ==> a[s] == b[s]
    ensures Under(a, streams) == Under(b, streams)
  {
    forall h ensures h in Under(a, streams) <==> h in Under(b, streams) {
      if h in Under(a, streams) {
        var s, i :| s in a && s in streams && i in a[s] && a[s][i] == h;
        assert s in b && i in b[s] && b[s][i] == h;
      }
      if h in Under(b, streams) {
        var s, i :| s in b && s in streams && i in b[s] && b[s][i] == h;
        assert s in a && i in a[s] && a[s][i] == h;
      }
    }
  }

  /** More streams without buffers: the handles are the same. */
  lemma {:induction false} AddedKeeps(cache: Cache, added: Cache, ids: set<StreamId>,
                                      gone: set<StreamId>)
    requires Distinct(cache) && added.Keys == cache.Keys + ids && gone == added.Keys - ids
    requires forall id :: id in added ==> added[id] == Buffers(cache, id)
    ensures gone == cache.Keys - ids
    ensures Distinct(added) && Under(added, gone) == Under(cache, gone)
    ensures added - gone == Extended(cache - gone, ids - cache.Keys)
    ensures Distinct(added - gone) && (added - gone).Keys == ids
  {
    UnderSame(added, cache, gone);
  }

  /** A new entry, and a new handle in it, keep the handles distinct. */
  lemma {:induction false} OneMoreDistinct(cache: Cache, stream: StreamId, id: BufferId,
                                           handle: Handle)
    requires Distinct(cache)
    requires forall s, b :: s in cache && b in cache[s] ==> cache[s][b] < handle
    ensures Distinct(cache[stream := Buffers(cache, stream)])
    ensures Distinct(Cached(cache, stream, id, handle))
  {
    var t := Cached(cache, stream, id, handle);
    forall s, b | s in t && b in t[s]
      ensures if s == stream && b == id then t[s][b] == handle
              else s in cache && b in cache[s] && t[s][b] == cache[s][b]
    {
    }
  }

  lemma {:induction false} ExtendedByOne(cache: Cache, s: StreamId)
    ensures Extended(cache, {s}) == cache[s := Buffers(cache, s)]
  {
  }

  lemma {:induction false} UnderMore(cache: Cache, ids: set<StreamId>, id: StreamId)
    requires Distinct(cache) && id !in ids && id in cache
    ensures multiset(Under(cache, ids + {id}))
         == multiset(Under(cache, ids)) + multiset(Under(cache - ids, {id}))
  {
    var a, b := Under(cache, ids), Under(cache - ids, {id});
    forall h ensures h in Under(cache, ids + {id}) <==> h in a || h in b {
      if h in b {
        var s, c :| s in cache - ids && s in {id} && c in cache[s] && cache[s][c] == h;
        assert s in ids + {id};
      }
      if h in Under(cache, ids + {id}) {
        var s, c :| s in cache && s in ids + {id} && c in cache[s] && cache[s][c] == h;
        if s == id { assert s in cache - ids && s in {id}; }
      }
    }
    assert Under(cache, ids + {id}) == a + b;
    assert a !! b;
    assert multiset(a + b) == multiset(a) + multiset(b);
  }

  lemma {:induction false} RemovedNone(cache: Cache)
    ensures WithoutCaches(cache, Pairs([])) == cache && Removed(cache, Pairs([])) == {}
  {
    forall s | s in cache ensures WithoutCaches(cache, Pairs([]))[s] == cache[s] {}
  }

  /** One more cache to remove: its handle is freed if it is still there. */
  lemma {:induction false} RemovedMore(cache: Cache, caches: seq<(StreamId, BufferId)>, k: nat)
    requires Distinct(cache) && k < |caches|
    ensures var s, b := caches[k].0, caches[k].1;
            var before, after := Pairs(caches[..k]), Pairs(caches[..k + 1]);
            var left := WithoutCaches(cache, before);
            && WithoutCaches(cache, after) == Dropped(left, s, b)
            && (!(s in left && b in left[s]) ==> Dropped(left, s, b) == left)
            && multiset(Removed(cache, after))
               == multiset(Removed(cache, before))
                  + if s in left && b in left[s] then multiset{left[s][b]} else multiset{}
  {
    var s, b := caches[k].0, caches[k].1;
    var before, after := Pairs(caches[..k]), Pairs(caches[..k + 1]);
    assert after == before + {(s, b)};
    WithoutMore(cache, before, s, b);
    FreedMore(cache, before, s, b);
    var left := WithoutCaches(cache, before);
    if !(s in left && b in left[s]) { DroppedNothing(left, s, b); }
  }

  /** The cache without one buffer, if it is there. */
  function Dropped(cache: Cache, stream: StreamId, id: BufferId): Cache {
    if stream in cache then
      var cbs: map<BufferId, Handle> := cache[stream] - {id};
      cache[stream := cbs]
    else cache
  }

  lemma {:induction false} DroppedNothing(cache: Cache, s: StreamId, b: BufferId)
    requires !(s in cache && b in cache[s])
    ensures Dropped(cache, s, b) == cache
  {
    if s in cache { assert cache[s] - {b} == cache[s]; }
  }

  lemma {:induction false} WithoutMore(cache: Cache, caches: set<(StreamId, BufferId)>,
                                       s: StreamId, b: BufferId)
    ensures WithoutCaches(cache, caches + {(s, b)}) == Dropped(WithoutCaches(cache, caches), s, b)
  {
    var left, more := WithoutCaches(cache, caches), WithoutCaches(cache, caches + {(s, b)});
    forall t | t in cache ensures more[t] == Dropped(left, s, b)[t] {
      assert more[t].Keys == Dropped(left, s, b)[t].Keys;
    }
  }

  lemma {:induction false} FreedMore(cache: Cache, caches: set<(StreamId, BufferId)>,
                                     s: StreamId, b: BufferId)
    requires Distinct(cache)
    ensures var left := WithoutCaches(cache, caches);
            multiset(Removed(cache, caches + {(s, b)}))
            == multiset(Removed(cache, caches))
               + if s in left && b in left[s] then multiset{left[s][b]} else multiset{}
  {
    var left := WithoutCaches(cache, caches);
    var was, now := Removed(cache, caches), Removed(cache, caches + {(s, b)});
    if s in left && b in left[s] {
      var h := cache[s][b];
      assert h !in was;
      assert now == was + {h};
      assert multiset(was + {h}) == multiset(was) + multiset{h};
    } else {
      assert now == was;
    }
  }
}
