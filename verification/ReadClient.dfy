/**
 The read client in the source's own form: module variables and Maps updated in place. Each method is proved
 to take the abstract state where the step system of `ReadCoherence` says.
 */
module ReadClient {
  import opened Wrappers
  import opened DataScopes
  import opened ReadCoherence

  lemma BumpOneMore(revisions: map<Scope, nat>, scopes: seq<Scope>, goal: map<Scope, nat>)
    requires scopes != [] && Bump(revisions, scopes) == goal
    ensures Bump(revisions[scopes[0] := Count(revisions, scopes[0]) + 1], scopes[1..]) == goal
  {
  }

  lemma AbortOneMore(ts: seq<Transport>, inFlight: map<Key, TransportId>, done: set<Key>, k: Key)
    requires k in inFlight && inFlight[k] < |ts|
    ensures var id := inFlight[k];
            AbortAll(ts, IdsOf(inFlight, done + {k}))
            == AbortAll(ts, IdsOf(inFlight, done))[id := AbortAll(ts, IdsOf(inFlight, done))[id].(aborted := true)]
  {
    assert IdsOf(inFlight, done + {k}) == IdsOf(inFlight, done) + {inFlight[k]};
  }

  class Client {
    var authenticationEpoch: nat
    var readRevision: nat
    var sessionAuthorizationEpochs: map<Session, nat>
    var sessionReadRevisions: map<Session, nat>
    var dataScopeRevisions: map<Scope, nat>
    var lastSuccessfulReads: map<Key, Cached>
    var inFlightReads: map<Key, TransportId>
    var sharedReads: seq<Transport>
    var readers: map<ReaderId, Reader>
    var log: seq<Event>  // instrumentation: the clock of the step system

    ghost function Model(): State
      reads this
    {
      State(authenticationEpoch, readRevision, sessionAuthorizationEpochs, sessionReadRevisions, dataScopeRevisions,
            lastSuccessfulReads, inFlightReads, sharedReads, readers, log)
    }

    ghost predicate Valid()
      reads this
    {
      WellFormed(Model())
    }

    constructor ()
      ensures Valid() && Model() == Init
    {
      authenticationEpoch, readRevision := 0, 0;
      sessionAuthorizationEpochs, sessionReadRevisions, dataScopeRevisions := map[], map[], map[];
      lastSuccessfulReads, inFlightReads, sharedReads, readers, log := map[], map[], [], map[], [];
    }

    /** Aborts and unregisters the in-flight reads under `doomed`, one entry at a time. */
    method DropReads(doomed: set<Key>)
      requires Valid() && doomed <= inFlightReads.Keys
      modifies this`inFlightReads, this`sharedReads
      ensures Model() == DropInFlight(old(Model()), doomed)
    {
      var todo := doomed;
      ghost var done := {};
      while todo != {}
        invariant doomed == done + todo && done !! todo
        invariant inFlightReads == old(inFlightReads) - done
        invariant sharedReads == AbortAll(old(sharedReads), IdsOf(old(inFlightReads), done))
        decreases todo
      {
        var k :| k in todo;
        var id := inFlightReads[k];
        sharedReads := sharedReads[id := sharedReads[id].(aborted := true)];
        inFlightReads := inFlightReads - {k};
        AbortOneMore(old(sharedReads), old(inFlightReads), done, k);
        todo, done := todo - {k}, done + {k};
      }
      assert done == doomed;
    }

    /** Deletes the stored results under `doomed`, one entry at a time. */
    method DropResults(doomed: set<Key>)
      requires doomed <= lastSuccessfulReads.Keys
      modifies this`lastSuccessfulReads
      ensures Model() == old(Model()).(cache := old(lastSuccessfulReads) - doomed)
    {
      var todo := doomed;
      while todo != {}
        invariant todo <= doomed
        invariant lastSuccessfulReads == old(lastSuccessfulReads) - (doomed - todo)
        decreases todo
      {
        var k :| k in todo;
        lastSuccessfulReads := lastSuccessfulReads - {k};
        todo := todo - {k};
      }
    }

    method Note(e: Event)
      modifies this`log
      ensures Model() == old(Model()).(log := old(log) + [e])
    {
      log := log + [e];
    }

    method InvalidateApiReadCache()
      requires Valid()
      modifies this
      ensures Model() == InvalidateAll(old(Model()))
    {
      authenticationEpoch := authenticationEpoch + 1;
      readRevision := readRevision + 1;
      sessionReadRevisions, dataScopeRevisions, lastSuccessfulReads := map[], map[], map[];
      DropReads(inFlightReads.Keys);
      Note(InvalidatedAll);
    }

    method BumpSession(name: Session)
      modifies this`sessionAuthorizationEpochs, this`readRevision, this`sessionReadRevisions
      ensures Model() == old(Model()).(
                sessionEpochs := old(sessionAuthorizationEpochs)[
                    name := Count(old(sessionAuthorizationEpochs), name) + 1],
                readRevision := old(readRevision) + 1,
                sessionRevisions := old(sessionReadRevisions)[name := Count(old(sessionReadRevisions), name) + 1])
    {
      sessionAuthorizationEpochs := sessionAuthorizationEpochs[name := Count(sessionAuthorizationEpochs, name) + 1];
      readRevision := readRevision + 1;
      sessionReadRevisions := sessionReadRevisions[name := Count(sessionReadRevisions, name) + 1];
    }

    method DropRevoked(name: Session)
      requires Valid()
      modifies this`lastSuccessfulReads, this`inFlightReads, this`sharedReads
      ensures Model() == DropInFlight(old(Model()), RevokedReads(old(Model()), name)).(
                           cache := old(lastSuccessfulReads) - RevokedResults(old(Model()), name))
    {
      ghost var before := Model();
      var doomed := set k | k in lastSuccessfulReads
                            && (lastSuccessfulReads[k].session == name || name in lastSuccessfulReads[k].data.refs);
      assert doomed == RevokedResults(before, name);
      DropResults(doomed);
      var pending := set k | k in inFlightReads && sharedReads[inFlightReads[k]].stamp.session in {"", name};
      assert pending == RevokedReads(before, name);
      DropReads(pending);
    }

    method InvalidateSessionAuthorization(session: Session)
      requires Valid()
      modifies this
      ensures Model() == Revoke(old(Model()), session)
    {
      var name := Trim(session);
      if name == "" {
        InvalidateApiReadCache();
        return;
      }
      BumpSession(name);
      DropRevoked(name);
      Note(Revoked(name));
    }

    method BumpScopes(scopes: seq<Scope>)
      modifies this`dataScopeRevisions
      ensures Model() == old(Model()).(scopeRevisions := Bump(old(dataScopeRevisions), scopes))
    {
      ghost var rest, goal := scopes, Bump(dataScopeRevisions, scopes);
      for i := 0 to |scopes|
        invariant rest == scopes[i..] && Bump(dataScopeRevisions, rest) == goal
      {
        BumpOneMore(dataScopeRevisions, rest, goal);
        dataScopeRevisions := dataScopeRevisions[scopes[i] := Count(dataScopeRevisions, scopes[i]) + 1];
        rest := rest[1..];
      }
    }

    method InvalidateDataScopes(scopes: seq<Scope>)
      requires Valid()
      modifies this
      ensures Model() == InvalidateScopes(old(Model()), scopes)
    {
      if |scopes| == 0 { return; }
      ghost var before := Model();
      BumpScopes(scopes);
      var doomed := set k | k in lastSuccessfulReads && AnyScopeMatches(scopes, lastSuccessfulReads[k].scopes);
      assert doomed == MatchingResults(before, scopes);
      DropResults(doomed);
      var pending := set k | k in inFlightReads && AnyScopeMatches(scopes, sharedReads[inFlightReads[k]].scopes);
      assert pending == MatchingReads(before, scopes);
      DropReads(pending);
      Note(InvalidatedScopes(scopes));
    }

    method Release(id: ReaderId)
      requires Valid() && id in readers
      modifies this`sharedReads, this`readers
      ensures Model() == Detach(old(Model()), id)
    {
      var t := readers[id].transport;
      var shared := sharedReads[t];
      shared := shared.(subscribers := if shared.subscribers == 0 then 0 else shared.subscribers - 1);
      if shared.subscribers == 0 && !shared.phase.Settled? {
        shared := shared.(aborted := true);
      }
      sharedReads := sharedReads[t := shared];
      readers := readers - {id};
    }

    method Subscribe(id: ReaderId, request: Request, key: Key, retry: bool, t: TransportId)
      requires Valid() && t < |sharedReads|
      modifies this`sharedReads, this`readers
      ensures Model() == Attach(old(Model()), id, request, key, retry, t)
    {
      sharedReads := sharedReads[t := sharedReads[t].(subscribers := sharedReads[t].subscribers + 1)];
      readers := readers[id := Reader(request, key, readRevision, retry, t)];
    }

    method CaptureKey(request: Request) returns (key: Key)
      ensures key == TakeKey(Model(), request)
    {
      var stamp := Stamp(authenticationEpoch, request.session, Count(sessionAuthorizationEpochs, request.session));
      var revision := if request.session == "" then 0 else Count(sessionReadRevisions, request.session);
      key := Key(stamp, revision, map scope | scope in request.scopes ::
          Count(dataScopeRevisions, scope), request.locator);
    }

    /** Registers a new shared transport; an aborted one still registered under the key is replaced. */
    method CreateRead(key: Key)
      requires Valid()
      modifies this`inFlightReads, this`sharedReads, this`log
      ensures Model() == Create(old(Model()), key)
    {
      inFlightReads := inFlightReads[key := |sharedReads|];
      var shared := Transport(|log|, key.stamp, key.revisions.Keys, false, 0, Pending);
      Note(Started(|sharedReads|));
      sharedReads := sharedReads + [shared];
    }

    /** The synchronous part of `readAtRevision`; a value comes back when the positive cache answers. */
    method BeginRead(id: ReaderId, request: Request, retry: bool, cancelled: bool, now: int)
        returns (cached: Option<Data>)
      requires Valid()
      modifies this
      ensures Model() == Begin(old(Model()), id, request, retry, cancelled, now)
      ensures cached.Some? ==> log == old(log) + [Served(id, request, cached.value, CacheHit)]
      ensures cached.None? && !cancelled ==> id in readers && readers[id].request == request
    {
      var key := CaptureKey(request);
      if request.ttl > 0 && key in lastSuccessfulReads && lastSuccessfulReads[key].cacheUntil >= now {
        cached := Some(lastSuccessfulReads[key].data);
        Note(Served(id, request, cached.value, CacheHit));
        return;
      }
      cached := None;
      if key !in inFlightReads || sharedReads[inFlightReads[key]].aborted {
        CreateRead(key);
      }
      if !cancelled { Subscribe(id, request, key, retry, inFlightReads[key]); }
    }

    method StampCurrent(stamp: Stamp) returns (b: bool)
      ensures b == StampIsCurrent(Model(), stamp)
    {
      b := stamp.globalEpoch == authenticationEpoch
           && (stamp.session == "" || stamp.sessionEpoch == Count(sessionAuthorizationEpochs, stamp.session));
    }

    /** `readRevisionIsCurrent` and `dataScopeRevisionsAreCurrent`. */
    method RevisionsCurrent(r: Reader) returns (b: bool)
      ensures b == (ReadRevisionIsCurrent(Model(), r) && ScopesAreCurrent(Model(), r.key.revisions))
    {
      b := r.readRevision == readRevision
           && (r.request.session == "" || r.key.sessionRevision == Count(sessionReadRevisions, r.request.session))
           && forall scope <- r.key.revisions :: r.key.revisions[scope] == Count(dataScopeRevisions, scope);
    }

    method RejectAuthorization(stamp: Stamp, status: nat)
      requires Valid()
      modifies this
      ensures Model() == Reject(old(Model()), stamp, status)
    {
      if status == 403 && stamp.session != "" {
        InvalidateSessionAuthorization(stamp.session);
      } else if status == 401 {
        InvalidateApiReadCache();
      }
    }

    /**
     The error path: a rejected authorization invalidates, an unreachable server may fall back on the stored result.
     */
    method FailRead(id: ReaderId, r: Reader, failure: Failure, status: nat) returns (stale: Option<Data>)
      requires Valid()
      modifies this
      ensures Model() == Fail(old(Model()), id, r, failure, status)
      ensures stale.Some? ==> log == old(log) + [Served(id, r.request, stale.value, StaleFallback)]
    {
      if failure == Forbidden {
        var mine := StampCurrent(r.key.stamp);
        if mine {
          RejectAuthorization(r.key.stamp, if status == 0 then 403 else status);
        }
        lastSuccessfulReads := lastSuccessfulReads - {r.key};
      }
      stale := None;
      var current := StampCurrent(r.key.stamp);
      if current && r.key in lastSuccessfulReads && failure in {Offline, ServerError, Timeout} {
        stale := Some(lastSuccessfulReads[r.key].data);
        Note(Served(id, r.request, stale.value, StaleFallback));
      }
    }

    method StoreResult(r: Reader, data: Data, now: int)
      modifies this`lastSuccessfulReads
      ensures Model() == old(Model()).(cache := old(lastSuccessfulReads)[r.key :=
                           Cached(data, r.request.session, r.request.scopes, if r.request.ttl > 0
                               then now + r.request.ttl else 0)])
    {
      var until := if r.request.ttl > 0 then now + r.request.ttl else 0;
      lastSuccessfulReads := lastSuccessfulReads[r.key := Cached(data, r.request.session, r.request.scopes, until)];
    }

    /** The outer `catch`. */
    method CatchError(id: ReaderId, r: Reader, failure: Failure, status: nat, cancelled: bool)
      requires Valid()
      modifies this
      ensures Model() == Catch(old(Model()), id, r, failure, status, cancelled)
    {
      if !cancelled { var _ := FailRead(id, r, failure, status); }
    }

    /** The part of the continuation that has a value in hand. */
    method ReceiveValue(id: ReaderId, r: Reader, data: Data, cancelled: bool, now: int)
      requires Valid()
      modifies this
      ensures Model() == Continue(old(Model()), id, r, Value(data), cancelled, now)
    {
      var authorized := StampCurrent(r.key.stamp);
      var upToDate := RevisionsCurrent(r);
      if !authorized {
        CatchError(id, r, Forbidden, 403, cancelled);
      } else if upToDate {
        StoreResult(r, data, now);
        Note(Served(id, r.request, data, Transported));
      } else if r.retry {
        var _ := BeginRead(id, r.request, false, cancelled, now);
      } else {
        CatchError(id, r, StaleRead, 0, cancelled);
      }
    }

    /** The continuation of `readAtRevision` once its shared transport has settled. */
    method ResumeRead(id: ReaderId, cancelled: bool, now: int)
      requires Valid() && id in readers && sharedReads[readers[id].transport].phase.Settled?
      modifies this
      ensures Model() == Next(old(Model()), Resume(id, cancelled, now))
    {
      var r := readers[id];
      var outcome := sharedReads[r.transport].phase.outcome;
      Release(id);
      match outcome
      case Value(data) =>
        ReceiveValue(id, r, data, cancelled, now);
      case AbortedTransport =>
        var authorized := StampCurrent(r.key.stamp);
        if !cancelled && authorized && r.retry {
          var _ := BeginRead(id, r.request, false, cancelled, now);
        }
      case Failed(failure, status) =>
        CatchError(id, r, failure, status, cancelled);
    }

    /** `promise.finally`: the transport settles and leaves the registry if it still owns its entry. */
    method SettleRead(t: TransportId)
      requires Valid() && t < |sharedReads| && sharedReads[t].phase.Resolved?
      modifies this
      ensures Model() == SettleTransport(old(Model()), t)
    {
      sharedReads := sharedReads[t := sharedReads[t].(phase := Settled(sharedReads[t].phase.outcome, |log|))];
      inFlightReads := inFlightReads - (set k | k in inFlightReads && inFlightReads[k] == t);
      log := log + [Finished(t)];
    }
  }
}
