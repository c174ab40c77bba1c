/** The SCIM client: the reconciliation engine that pushes local group
    changes to the remote service (create, replace, delete), walks the
    local groups to refresh the remote side, imports the remote groups, and
    records what it did in a synchronization result. */
module Client {
  import opened Common
  import opened Sets
  import opened Mappings
  import opened Directory
  import opened GroupFilter
  import opened Remote
  import opened Adapters
  import opened SyncResult
  import opened Runs

  /** `genScimUrl`: "<base>/<endpoint>/<path>", with "null" for an unset path. */
  function GenScimUrl(base: string, endpoint: string, path: Option<string>): string
  {
    base + "/" + endpoint + "/" + Str(path)
  }

  /** Two resources of one endpoint never share a URL. */
  lemma UrlNamesResource(base: string, endpoint: string, x: string, y: string)
    requires GenScimUrl(base, endpoint, Some(x)) == GenScimUrl(base, endpoint, Some(y))
    ensures x == y
  {
    var p := base + "/" + endpoint + "/";
    assert GenScimUrl(base, endpoint, Some(x)) == p + x;
    assert GenScimUrl(base, endpoint, Some(y)) == p + y;
    assert (p + x)[|p|..] == x;
    assert (p + y)[|p|..] == y;
  }

  /** Whether `replace` sends a PATCH rather than a full update: "group-patchOp"
      for groups, "user-patchOp" for users. */
  function UsesPatch(config: ConnectorConfig, k: Kind): (b: bool)
    ensures b <==> (if k == GroupKind then config.groupPatchOp else config.userPatchOp)
  {
    (k == GroupKind && config.groupPatchOp) || (k == UserKind && config.userPatchOp)
  }

  /** The row of a scope for a local id and a remote id. */
  function MappingFor(sc: Scope, id: string, externalId: string): (m: Mapping)
    ensures InScope(m, sc) && m.id == id && m.externalId == externalId
  {
    Mapping(sc.resourceType, sc.realmId, sc.componentId, id, externalId)
  }

  /** The group a reply to a create carries, when applying it gets through. */
  function Created(rep: Reply): (r: Option<RemoteGroup>)
    ensures r.Some? <==> rep.Answered? && rep.response.body.One? && Complete(rep.response.body.group)
    ensures r.Some? ==> r.value == rep.response.body.group && r.value.id.Some?
  {
    if rep.Answered? && rep.response.body.One? && Complete(rep.response.body.group) then
      Some(rep.response.body.group)
    else None
  }

  /** How `create` ends after its remote call: the exception of a reply
      without a response, a null resource, an incomplete resource, or
      success. Success does not depend on the response status. */
  function CreateOutcome(rep: Reply): (o: Outcome<Error>)
    ensures o.Pass? <==> Created(rep).Some?
    ensures !rep.Answered? ==> o == Fail(Failure(rep))
    ensures rep.Answered? && !rep.response.body.One? ==> o == Fail(NullResource)
    ensures rep.Answered? && rep.response.body.One? && !Complete(rep.response.body.group) ==> o == Fail(NoValuePresent)
  {
    if !rep.Answered? then Fail(Failure(rep))
    else if !rep.response.body.One? then Fail(NullResource)
    else if !Complete(rep.response.body.group) then Fail(NoValuePresent)
    else Pass
  }

  /** `create` does nothing for a skipped group or one that already has a row. */
  ghost predicate CreateSkips(rows: set<Mapping>, sc: Scope, g: LocalGroup)
  {
    g.scimSkip == Some("true") || Select(rows, sc, FindById, Some(g.id)) != {}
  }

  /** The row `replace` works on: none for a skipped group, and none unless
      the id has exactly one row (the query exceptions are swallowed). */
  ghost function ReplaceTarget(rows: set<Mapping>, sc: Scope, g: LocalGroup): (r: Option<Mapping>)
    ensures r.Some? ==> r.value in rows && InScope(r.value, sc) && r.value.id == g.id
  {
    if g.scimSkip == Some("true") then None
    else LookupMapping(rows, sc, Some(g.id), None)
  }

  /** The first request of `replace`: a PATCH of the members, or a full
      update, at the resource's URL. */
  ghost predicate FirstReplaceRequest(req: Request, url: string, patch: bool, g: LocalGroup, m: Mapping,
                                      f: string -> Option<string>)
  {
    if patch then
      req.PatchRequest? && req.url == url && PatchOf(req.operations, g.members, f)
    else
      (req.UpdateRequest? && req.url == url
       && PayloadOf(req.resource, Some(g.id), Some(m.externalId), Some(g.name), g.members, f, false))
  }

  /** A failed replacement the server refused with 405 is retried once as a
      PATCH, for groups when "group-patchOp" is off. */
  predicate PatchFallback(config: ConnectorConfig, rep: Reply)
  {
    rep.Answered? && !rep.response.success && rep.response.status == 405 && !config.groupPatchOp
  }

  /** A failed replacement with 404 or 400 is retried once as a create. */
  predicate CreateFallback(rep: Reply)
  {
    rep.Answered? && !rep.response.success && (rep.response.status == 404 || rep.response.status == 400)
  }

  // ---------------------------------------------------------------------
  // Relinking a row after the create fallback of `replace`

  /** The update `replace` means to make after recreating a resource: the
      row of the local id names the new remote id. */
  function Relink(rows: set<Mapping>, m: Mapping, newExternalId: string): (r: set<Mapping>)
    ensures m.(externalId := newExternalId) in r
    ensures m.externalId != newExternalId ==> m !in r
    ensures forall x :: x != m && x != m.(externalId := newExternalId) ==> (x in r <==> x in rows)
  {
    rows - {m} + {m.(externalId := newExternalId)}
  }

  /** After relinking, looking the local id up gives the new remote id. */
  lemma RelinkIsFound(rows: set<Mapping>, sc: Scope, m: Mapping, newExternalId: string)
    requires Select(rows, sc, FindById, Some(m.id)) == {m}
    ensures LookupMapping(Relink(rows, m, newExternalId), sc, Some(m.id), None) == Some(m.(externalId := newExternalId))
  {
    var m' := m.(externalId := newExternalId);
    var s := Select(Relink(rows, m, newExternalId), sc, FindById, Some(m.id));
    assert m in Select(rows, sc, FindById, Some(m.id));
    assert m' in s;
    assert s == {m'};
  }

  /** The update as the code writes it: the adapter's externalId, which
      the created resource cannot change once the row has set it, is
      written back into the row. */
  function RelinkAsWritten(rows: set<Mapping>, m: Mapping, created: RemoteGroup): set<Mapping>
  {
    var adapterExternalId := Assign(Some(m.externalId), created.id);
    rows - {m} + {m.(externalId := adapterExternalId.value)}
  }

  /** As written, the update never changes the table. */
  lemma RelinkAsWrittenChangesNothing(rows: set<Mapping>, m: Mapping, created: RemoteGroup)
    requires m in rows
    ensures RelinkAsWritten(rows, m, created) == rows
  {
    assert m.(externalId := m.externalId) == m;
  }

  /** A resource recreated under a new remote id: as written, the row still
      names the old one, so later replacements and the delete go to the
      old URL; the corrected update links the new one. */
  lemma StaleExternalIdExample()
    ensures var m := Mapping("Group", "realm", "component", "g1", "old");
      var created := RemoteGroup(Some("new"), Some("admins"), []);
      var sc := Scope("Group", "realm", "component");
      && LookupMapping(RelinkAsWritten({m}, m, created), sc, Some("g1"), None) == Some(m)
      && LookupMapping(Relink({m}, m, "new"), sc, Some("g1"), None) == Some(m.(externalId := "new"))
  {
    var m := Mapping("Group", "realm", "component", "g1", "old");
    var created := RemoteGroup(Some("new"), Some("admins"), []);
    var sc := Scope("Group", "realm", "component");
    RelinkAsWrittenChangesNothing({m}, m, created);
    assert Select({m}, sc, FindById, Some("g1")) == {m};
    RelinkIsFound({m}, sc, m, "new");
  }

  /** The table after the create fallback of `replace` for the row `m`,
      whose reply is `rep`, as the code writes it: a created resource that
      applies leads to `RelinkAsWritten`; anything else changes nothing. */
  function FallbackRows(rows: set<Mapping>, m: Mapping, rep: Reply): set<Mapping>
  {
    if rep.Answered? && rep.response.success && Created(rep).Some? then RelinkAsWritten(rows, m, Created(rep).value)
    else rows
  }

  /** The table after the create fallback as it is meant to be: the row
      names the created resource. */
  function FallbackRowsIntended(rows: set<Mapping>, m: Mapping, rep: Reply): set<Mapping>
  {
    if rep.Answered? && rep.response.success && Created(rep).Some? then Relink(rows, m, Created(rep).value.id.value)
    else rows
  }

  /** After a successful recreation under a new remote id, the row of the
      group still names the old remote id as written, and the new one as
      intended. */
  lemma RecreatedRowStaysStale(rows: set<Mapping>, sc: Scope, m: Mapping, rep: Reply)
    requires Select(rows, sc, FindById, Some(m.id)) == {m}
    requires rep.Answered? && rep.response.success && Created(rep).Some?
    ensures FallbackRows(rows, m, rep) == rows
    ensures LookupMapping(FallbackRows(rows, m, rep), sc, Some(m.id), None) == Some(m)
    ensures LookupMapping(FallbackRowsIntended(rows, m, rep), sc, Some(m.id), None)
            == Some(m.(externalId := Created(rep).value.id.value))
  {
    assert m in Select(rows, sc, FindById, Some(m.id));
    RelinkAsWrittenChangesNothing(rows, m, Created(rep).value);
    RelinkIsFound(rows, sc, m, Created(rep).value.id.value);
  }

  /** The entries of a series of calls, one list per call. */
  function Flatten(ss: seq<seq<Entry>>): seq<Entry>
  {
    if ss == [] then [] else Flatten(ss[..|ss| - 1]) + ss[|ss| - 1]
  }

  lemma FlattenSnoc(ss: seq<seq<Entry>>, x: seq<Entry>)
    ensures Flatten(ss + [x]) == Flatten(ss) + x
  {
    assert (ss + [x])[..|ss|] == ss;
  }

  /** The calls of one more step appended to a series of steps, all of
      them about groups. */
  lemma GroupStepsSnoc(t: Tally, ss: seq<seq<Entry>>, x: seq<Entry>, t': Tally)
    requires t' == Replay(Replay(t, Flatten(ss)), x)
    requires forall e :: e in Flatten(ss) ==> e.kind == GroupKind
    requires forall j :: 0 <= j < |x| ==> x[j].kind == GroupKind
    ensures t' == Replay(t, Flatten(ss + [x]))
    ensures forall e :: e in Flatten(ss + [x]) ==> e.kind == GroupKind
  {
    FlattenSnoc(ss, x);
    ReplayConcat(t, Flatten(ss), x);
  }

  /** What the loops of the client move through, one step per resource:
      the directory's groups, the table, the request count and log, and
      the result. */
  datatype Snapshot = Snapshot(groups: seq<LocalGroup>, rows: set<Mapping>, cursor: nat, log: seq<Request>, tally: Tally)

  /** Distinct groups of a realm whose ids are unique have unique ids. */
  lemma StreamIdsUnique(gs: seq<LocalGroup>, component: Option<ConnectorConfig>, matches: (string, string) -> bool,
                        r: seq<LocalGroup>)
    requires UniqueIds(gs) && IsResourceStream(gs, component, matches, r)
    ensures UniqueIds(r)
  {
    if !Unfiltered(component) {
      forall i, j | 0 <= i < j < |r| ensures r[i].id != r[j].id {
        var a :| 0 <= a < |gs| && gs[a] == r[i];
        var b :| 0 <= b < |gs| && gs[b] == r[j];
        assert a != b;
      }
    }
  }

  // ---------------------------------------------------------------------
  // The client

  class ScimClient {
    /** The connector component's configuration. */
    const config: ConnectorConfig
    /** The connector's own component as the realm returns it when the
        group filter is read: the same configuration, or none once the
        component has been removed. */
    const realmComponent: Option<ConnectorConfig>
    const realmId: string
    const oracles: Oracles
    const store: MappingStore
    const dir: LocalDirectory
    /** The replies the server gives, in the order requests are sent. */
    const server: nat -> Reply
    /** How many requests have been sent. */
    var cursor: nat
    /** The requests sent so far, in order. */
    var sent: seq<Request>

    constructor (config: ConnectorConfig, realmComponent: Option<ConnectorConfig>, realmId: string, oracles: Oracles,
                 store: MappingStore, dir: LocalDirectory, server: nat -> Reply)
      requires realmComponent.None? || realmComponent.value == config
      ensures this.config == config && this.realmComponent == realmComponent && this.realmId == realmId
      ensures this.oracles == oracles && this.store == store && this.dir == dir && this.server == server
      ensures cursor == 0 && sent == []
    {
      this.config := config;
      this.realmComponent := realmComponent;
      this.realmId := realmId;
      this.oracles := oracles;
      this.store := store;
      this.dir := dir;
      this.server := server;
      cursor := 0;
      sent := [];
    }

    function GroupScope(): Scope
    {
      ScopeOf(GroupKind, realmId, config.componentId)
    }

    function UserScope(): Scope
    {
      ScopeOf(UserKind, realmId, config.componentId)
    }

    /** The URL of a remote group. */
    function GroupUrl(externalId: Option<string>): string
    {
      GenScimUrl(config.endpoint, Endpoint(GroupKind), externalId)
    }

    /** The path a group is created at. */
    function CreatePath(): string
    {
      "/" + Endpoint(GroupKind)
    }

    // -------------------------------------------------------------------
    // Sending

    /** One request, one reply. */
    method Send(req: Request) returns (rep: Reply)
      modifies this
      ensures rep == server(old(cursor)) && cursor == old(cursor) + 1 && sent == old(sent) + [req]
    {
      rep := server(cursor);
      cursor := cursor + 1;
      sent := sent + [req];
    }

    /** The retry policy: the same request again while the reply is a
        transport failure, at most `MaxAttempts` times in all. */
    method SendWithRetry(req: Request) returns (rep: Reply)
      modifies this
      ensures rep == Retried(server, old(cursor), MaxAttempts).0
      ensures cursor == old(cursor) + Retried(server, old(cursor), MaxAttempts).1
      ensures sent == old(sent) + Repeat(req, Retried(server, old(cursor), MaxAttempts).1)
    {
      rep := Send(req);
      var attempts: nat := 1;
      while rep.Transport? && attempts < MaxAttempts
        invariant 1 <= attempts <= MaxAttempts
        invariant cursor == old(cursor) + attempts && sent == old(sent) + Repeat(req, attempts)
        invariant rep == server(cursor - 1)
        invariant forall k :: old(cursor) <= k < cursor - 1 ==> server(k).Transport?
        decreases MaxAttempts - attempts
      {
        rep := Send(req);
        attempts := attempts + 1;
      }
      RetriedIs(server, old(cursor), MaxAttempts, attempts);
    }

    /** The retry policy stops at the first reply that is not a transport
        failure, or when the attempts are used up. */
    lemma {:induction false} RetriedIs(script: nat -> Reply, from: nat, budget: nat, n: nat)
      requires 1 <= n <= budget
      requires forall k :: from <= k < from + n - 1 ==> script(k).Transport?
      requires !script(from + n - 1).Transport? || n == budget
      ensures Retried(script, from, budget) == (script(from + n - 1), n)
      decreases n
    {
      if n > 1 {
        RetriedIs(script, from + 1, budget - 1, n - 1);
      }
    }

    // -------------------------------------------------------------------
    // Recording

    /** `trackAdded`. */
    method TrackAdded(res: ScimSynchronizationResult, k: Kind, info: string)
      modifies res
      ensures res.View() == Record(old(res.View()), k, AddedBucket, info)
    {
      if k == UserKind {
        res.AddAddedUser(info);
      } else {
        res.AddAddedGroup(info);
      }
    }

    /** `trackUpdated`. */
    method TrackUpdated(res: ScimSynchronizationResult, k: Kind, info: string)
      modifies res
      ensures res.View() == Record(old(res.View()), k, UpdatedBucket, info)
    {
      if k == UserKind {
        res.AddUpdatedUser(info);
      } else {
        res.AddUpdatedGroup(info);
      }
    }

    /** `trackRemoved`. */
    method TrackRemoved(res: ScimSynchronizationResult, k: Kind, info: string)
      modifies res
      ensures res.View() == Record(old(res.View()), k, RemovedBucket, info)
    {
      if k == UserKind {
        res.AddRemovedUser(info);
      } else {
        res.AddRemovedGroup(info);
      }
    }

    /** `trackFailed`. */
    method TrackFailed(res: ScimSynchronizationResult, k: Kind, info: string)
      modifies res
      ensures res.View() == Record(old(res.View()), k, FailedBucket, info)
    {
      if k == UserKind {
        res.AddFailedUser(info);
      } else {
        res.AddFailedGroup(info);
      }
    }

    // -------------------------------------------------------------------
    // create

    /** What `create(g)` does, from the table, request count and request
        log before it (`users` being the directory's users) to the ones
        after it. */
    ghost predicate CreateEffect(users: set<string>, rows: set<Mapping>, cur: nat, log: seq<Request>,
                                 g: LocalGroup, o: Outcome<Error>,
                                 rows': set<Mapping>, cur': nat, log': seq<Request>)
    {
      if CreateSkips(rows, GroupScope(), g) then
        o == Pass && rows' == rows && cur' == cur && log' == log
      else
        var r := Retried(server, cur, MaxAttempts);
        && cur' == cur + r.1
        && (exists p :: PayloadOf(p, Some(g.id), None, Some(g.name), g.members, Outgoing(rows, users, UserScope()), false)
              && log' == log + Repeat(CreateRequest(CreatePath(), p), r.1))
        && o == CreateOutcome(r.0)
        && rows' == (if Created(r.0).Some? then rows + {MappingFor(GroupScope(), g.id, Created(r.0).value.id.value)} else rows)
    }

    /** `create(g)`: unless the group is skipped or already has a row, send
        it (with retries) and save the row that links it to the created
        resource. */
    method Create(g: LocalGroup) returns (o: Outcome<Error>)
      modifies this, store
      ensures CreateEffect(dir.users, old(store.rows), old(cursor), old(sent), g, o, store.rows, cursor, sent)
    {
      var a := new GroupAdapter(realmId, config.componentId, store, dir);
      a.ApplyLocal(g);
      if a.skip {
        return Pass;
      }
      var existing := store.ResultList(a.GroupScope(), FindById, a.id.value);
      if |existing| != 0 {
        return Pass;
      }
      var p := a.ToScim(false);
      var rep := SendWithRetry(CreateRequest(CreatePath(), p));
      if !rep.Answered? {
        return Fail(Failure(rep));
      }
      if !rep.response.body.One? {
        return Fail(NullResource);
      }
      var applied := a.ApplyRemote(rep.response.body.group);
      if applied.Fail? {
        return applied;
      }
      assert a.ToMapping() == MappingFor(GroupScope(), g.id, rep.response.body.group.id.value);
      a.SaveMapping();
      o := Pass;
    }

    /** `create` is idempotent: once it succeeds, a second `create` of the
        same group finds the row and sends nothing. */
    lemma CreateIsIdempotent(users: set<string>, rows: set<Mapping>, cur: nat, log: seq<Request>,
                             g: LocalGroup, o: Outcome<Error>,
                             rows': set<Mapping>, cur': nat, log': seq<Request>)
      requires CreateEffect(users, rows, cur, log, g, o, rows', cur', log')
      requires o.Pass? && g.scimSkip != Some("true")
      ensures CreateSkips(rows', GroupScope(), g)
    {
      if !CreateSkips(rows, GroupScope(), g) {
        var m := MappingFor(GroupScope(), g.id, Created(Retried(server, cur, MaxAttempts).0).value.id.value);
        assert m in Select(rows', GroupScope(), FindById, Some(g.id));
      }
    }

    /** Once `create` has saved a row, looking the group up finds it. */
    lemma CreateSavesFoundRow(users: set<string>, rows: set<Mapping>, cur: nat, log: seq<Request>,
                              g: LocalGroup, o: Outcome<Error>,
                              rows': set<Mapping>, cur': nat, log': seq<Request>)
      requires CreateEffect(users, rows, cur, log, g, o, rows', cur', log')
      requires Select(rows, GroupScope(), FindById, Some(g.id)) == {} && g.scimSkip != Some("true")
      ensures o.Pass? ==> LookupMapping(rows', GroupScope(), Some(g.id), None).Some?
      ensures o.Fail? ==> rows' == rows
    {
      var r := Retried(server, cur, MaxAttempts);
      if o.Pass? {
        SavedRowIsFound(rows, GroupScope(), MappingFor(GroupScope(), g.id, Created(r.0).value.id.value));
      }
    }

    // -------------------------------------------------------------------
    // delete

    /** What `delete(id)` does. */
    ghost predicate DeleteEffect(rows: set<Mapping>, cur: nat, log: seq<Request>, id: string, o: Outcome<Error>,
                                 rows': set<Mapping>, cur': nat, log': seq<Request>)
    {
      var s := Single(Select(rows, GroupScope(), FindById, Some(id)));
      if s.NoResult? then
        o == Pass && rows' == rows && cur' == cur && log' == log
      else if s.NonUnique? then
        o == Fail(NonUniqueResult) && rows' == rows && cur' == cur && log' == log
      else
        var r := Retried(server, cur, MaxAttempts);
        && cur' == cur + r.1
        && log' == log + Repeat(DeleteRequest(GroupUrl(Some(s.mapping.externalId))), r.1)
        && (if r.0.Answered? then o == Pass && rows' == rows - {s.mapping}
            else o == Fail(Failure(r.0)) && rows' == rows)
    }

    /** `delete(id)`: a missing row is only logged; several rows raise; one
        row is deleted remotely (with retries) and then removed, whatever
        the response status. */
    method Delete(id: string) returns (o: Outcome<Error>)
      modifies this, store
      ensures DeleteEffect(old(store.rows), old(cursor), old(sent), id, o, store.rows, cursor, sent)
    {
      var a := new GroupAdapter(realmId, config.componentId, store, dir);
      a.SetId(Some(id));
      var s := store.SingleResultOf(a.GroupScope(), FindById, a.id.value);
      if s.NoResult? {
        return Pass;
      }
      if s.NonUnique? {
        return Fail(NonUniqueResult);
      }
      a.ApplyMapping(s.mapping);
      var rep := SendWithRetry(DeleteRequest(GroupUrl(a.externalId)));
      if !rep.Answered? {
        return Fail(Failure(rep));
      }
      store.Remove(s.mapping);
      o := Pass;
    }

    // -------------------------------------------------------------------
    // replace

    /** What `replace(g)` does: nothing without a target row; otherwise
        what `ReplaceSent` says. */
    ghost predicate ReplaceEffect(users: set<string>, rows: set<Mapping>, cur: nat, log: seq<Request>, g: LocalGroup,
                                  rows': set<Mapping>, cur': nat, log': seq<Request>)
    {
      var target := ReplaceTarget(rows, GroupScope(), g);
      if target.None? then
        rows' == rows && cur' == cur && log' == log
      else
        ReplaceSent(users, rows, cur, log, g, target.value, rows', cur', log')
    }

    /** `replace` of a group whose row is `m`: the first request with
        retries, then at most one fallback request. */
    ghost predicate ReplaceSent(users: set<string>, rows: set<Mapping>, cur: nat, log: seq<Request>, g: LocalGroup,
                                m: Mapping, rows': set<Mapping>, cur': nat, log': seq<Request>)
    {
      && FirstSent(Outgoing(rows, users, UserScope()), g, m, cur, log, log')
      && FallbackEffect(Outgoing(rows, users, UserScope()), g, m, Retried(server, cur, MaxAttempts).0,
                        rows, cur + Retried(server, cur, MaxAttempts).1, |log| + Retried(server, cur, MaxAttempts).1,
                        rows', cur', log')
    }

    /** The first request of `replace` for the row `m`, sent as `Retried`
        says after the `log` already there. */
    ghost predicate FirstSent(f: string -> Option<string>, g: LocalGroup, m: Mapping, cur: nat,
                              log: seq<Request>, log': seq<Request>)
    {
      var n := Retried(server, cur, MaxAttempts).1;
      && |log'| >= |log| + n && log'[..|log|] == log
      && exists req :: FirstReplaceRequest(req, GroupUrl(Some(m.externalId)), UsesPatch(config, GroupKind), g, m, f)
                       && log'[|log|..|log| + n] == Repeat(req, n)
    }

    /** What follows the first request of `replace`, whose reply is `rep`:
        `sentBefore` requests are already in the log. */
    ghost predicate FallbackEffect(f: string -> Option<string>, g: LocalGroup, m: Mapping, rep: Reply,
                                   rows: set<Mapping>, cur: nat, sentBefore: nat,
                                   rows': set<Mapping>, cur': nat, log': seq<Request>)
    {
      var url := GroupUrl(Some(m.externalId));
      if PatchFallback(config, rep) then
        && cur' == cur + 1 && |log'| == sentBefore + 1 && rows' == rows
        && exists ops :: PatchOf(ops, g.members, f) && log'[sentBefore] == PatchRequest(url, ops)
      else if CreateFallback(rep) then
        && cur' == cur + 1 && |log'| == sentBefore + 1
        && (exists p :: PayloadOf(p, Some(g.id), Some(m.externalId), Some(g.name), g.members, f, false)
              && log'[sentBefore] == CreateRequest(CreatePath(), p))
        && rows' == FallbackRows(rows, m, server(cur))
      else
        cur' == cur && |log'| == sentBefore && rows' == rows
    }

    /** `replace(g)`: every exception is logged and swallowed. */
    method Replace(g: LocalGroup)
      modifies this, store
      ensures ReplaceEffect(dir.users, old(store.rows), old(cursor), old(sent), g, store.rows, cursor, sent)
    {
      var a := new GroupAdapter(realmId, config.componentId, store, dir);
      a.ApplyLocal(g);
      if a.skip {
        return;
      }
      var s := store.SingleResultOf(a.GroupScope(), FindById, a.id.value);
      if !s.Found? {
        return;
      }
      a.ApplyMapping(s.mapping);
      ReplaceMapped(a, g, s.mapping);
    }

    /** The first request of `replace`. */
    method FirstRequest(a: GroupAdapter, g: LocalGroup, m: Mapping) returns (req: Request)
      requires a.store == store && a.dir == dir && a.realmId == realmId && a.componentId == config.componentId
      requires a.id == Some(g.id) && a.externalId == Some(m.externalId) && a.displayName == Some(g.name)
      requires a.members == g.members
      ensures FirstReplaceRequest(req, GroupUrl(Some(m.externalId)), UsesPatch(config, GroupKind), g, m,
                                  Outgoing(store.rows, dir.users, UserScope()))
    {
      var url := GroupUrl(a.externalId);
      if UsesPatch(config, GroupKind) {
        var ops := a.ToPatch();
        req := PatchRequest(url, ops);
      } else {
        var p := a.ToScim(false);
        req := UpdateRequest(url, p);
      }
    }

    /** `replace` once the row `m` is known and applied to the adapter. */
    method ReplaceMapped(a: GroupAdapter, g: LocalGroup, m: Mapping)
      requires a.store == store && a.dir == dir && a.realmId == realmId && a.componentId == config.componentId
      requires a.id == Some(g.id) && a.externalId == Some(m.externalId) && a.displayName == Some(g.name)
      requires a.members == g.members && m.id == g.id
      requires Select(store.rows, GroupScope(), FindById, Some(g.id)) == {m}
      modifies this, store, a
      ensures ReplaceSent(dir.users, old(store.rows), old(cursor), old(sent), g, m, store.rows, cursor, sent)
    {
      var req := FirstRequest(a, g, m);
      var rep := SendWithRetry(req);
      ghost var log1 := sent;
      assert store.rows == old(store.rows);
      ReplaceFallback(a, g, m, rep);
      ReplaceSentOf(dir.users, old(store.rows), old(cursor), old(sent), g, m, req, log1, store.rows, cursor, sent);
    }

    /** The pieces of `ReplaceSent`: the first request sent as `Retried`
        says, followed by the fallback. */
    lemma ReplaceSentOf(users: set<string>, rows: set<Mapping>, cur: nat, log: seq<Request>, g: LocalGroup,
                        m: Mapping, req: Request, log1: seq<Request>,
                        rows': set<Mapping>, cur': nat, log': seq<Request>)
      requires FirstReplaceRequest(req, GroupUrl(Some(m.externalId)), UsesPatch(config, GroupKind), g, m,
                                   Outgoing(rows, users, UserScope()))
      requires log1 == log + Repeat(req, Retried(server, cur, MaxAttempts).1) && log1 <= log'
      requires FallbackEffect(Outgoing(rows, users, UserScope()), g, m, Retried(server, cur, MaxAttempts).0,
                              rows, cur + Retried(server, cur, MaxAttempts).1, |log1|, rows', cur', log')
      ensures ReplaceSent(users, rows, cur, log, g, m, rows', cur', log')
    {
      FirstSentOf(Outgoing(rows, users, UserScope()), g, m, cur, log, req, log1, log');
      assert |log1| == |log| + Retried(server, cur, MaxAttempts).1;
    }

    lemma FirstSentOf(f: string -> Option<string>, g: LocalGroup, m: Mapping, cur: nat,
                      log: seq<Request>, req: Request, log1: seq<Request>, log': seq<Request>)
      requires FirstReplaceRequest(req, GroupUrl(Some(m.externalId)), UsesPatch(config, GroupKind), g, m, f)
      requires log1 == log + Repeat(req, Retried(server, cur, MaxAttempts).1) && log1 <= log'
      ensures FirstSent(f, g, m, cur, log, log')
    {
      var n := Retried(server, cur, MaxAttempts).1;
      assert log'[..|log|] == log1[..|log|] == log;
      assert log'[|log|..|log| + n] == log1[|log|..|log| + n] == Repeat(req, n);
    }

    /** The error handling of `replace` after the first request. */
    method ReplaceFallback(a: GroupAdapter, g: LocalGroup, m: Mapping, rep: Reply)
      requires a.store == store && a.dir == dir && a.realmId == realmId && a.componentId == config.componentId
      requires a.id == Some(g.id) && a.externalId == Some(m.externalId) && a.displayName == Some(g.name)
      requires a.members == g.members && m.id == g.id
      requires Select(store.rows, GroupScope(), FindById, Some(g.id)) == {m}
      modifies this, store, a
      ensures old(sent) <= sent
      ensures FallbackEffect(Outgoing(old(store.rows), dir.users, UserScope()), g, m, rep,
                             old(store.rows), old(cursor), |old(sent)|, store.rows, cursor, sent)
    {
      if !rep.Answered? || rep.response.success {
        return;
      }
      var url := GroupUrl(a.externalId);
      var status := rep.response.status;
      if status == 405 && !config.groupPatchOp {
        var ops := a.ToPatch();
        var _ := Send(PatchRequest(url, ops));
      } else if status == 404 || status == 400 {
        var p := a.ToScim(false);
        var rep2 := Send(CreateRequest(CreatePath(), p));
        if rep2.Answered? && rep2.response.success && rep2.response.body.One? {
          var created := rep2.response.body.group;
          var applied := a.ApplyRemote(created);
          if applied.Pass? {
            var existing := a.GetMapping();
            assert existing == Some(m);
            store.Overwrite(existing.value, existing.value.(externalId := a.externalId.value));
          }
        }
      }
    }

    /** `create` and `replace` only change rows of the group's own id, and
        only append to the request log. */
    lemma CreateTouchesOnlyItsId(users: set<string>, rows: set<Mapping>, cur: nat, log: seq<Request>,
                                 g: LocalGroup, o: Outcome<Error>,
                                 rows': set<Mapping>, cur': nat, log': seq<Request>)
      requires CreateEffect(users, rows, cur, log, g, o, rows', cur', log')
      ensures log <= log'
      ensures forall x :: !InScope(x, GroupScope()) || x.id != g.id ==> (x in rows' <==> x in rows)
    {
    }

    lemma ReplaceTouchesOnlyItsId(users: set<string>, rows: set<Mapping>, cur: nat, log: seq<Request>, g: LocalGroup,
                                  rows': set<Mapping>, cur': nat, log': seq<Request>)
      requires ReplaceEffect(users, rows, cur, log, g, rows', cur', log')
      ensures log <= log'
      ensures forall x :: !InScope(x, GroupScope()) || x.id != g.id ==> (x in rows' <==> x in rows)
    {
      ReplaceKeepsRows(users, rows, cur, log, g, rows', cur', log');
    }

    /** As written, `replace` never changes the table: the create fallback
        writes the row's own externalId back into it. */
    lemma ReplaceKeepsRows(users: set<string>, rows: set<Mapping>, cur: nat, log: seq<Request>, g: LocalGroup,
                           rows': set<Mapping>, cur': nat, log': seq<Request>)
      requires ReplaceEffect(users, rows, cur, log, g, rows', cur', log')
      ensures rows' == rows && log <= log'
    {
      var target := ReplaceTarget(rows, GroupScope(), g);
      if target.Some? {
        var m := target.value;
        var rep := Retried(server, cur, MaxAttempts).0;
        if CreateFallback(rep) && !PatchFallback(config, rep) {
          var rep2 := server(cur + Retried(server, cur, MaxAttempts).1);
          if rep2.Answered? && rep2.response.success && Created(rep2).Some? {
            RelinkAsWrittenChangesNothing(rows, m, Created(rep2).value);
          }
        }
      }
    }

    // -------------------------------------------------------------------
    // refreshResources

    /** The state right now, seen through the result `res`. */
    ghost function Now(res: ScimSynchronizationResult): Snapshot
      reads this, store, dir, res
    {
      Snapshot(dir.groups, store.rows, cursor, sent, res.View())
    }

    /** The entry refreshing `g` records when the table is `rows`: added
        when getMapping finds no row, updated otherwise, described by the
        group's name and id. */
    ghost function RefreshEntryOf(rows: set<Mapping>, g: LocalGroup): Entry
    {
      Entry(GroupKind, if LookupMapping(rows, GroupScope(), Some(g.id), None).None? then AddedBucket else UpdatedBucket,
            ResourceInfo(Some(g.name), Some(g.id)))
    }

    /** What refreshing one group does, from `s` to `s'`: `create` and an
        added entry (none when the create raised) when getMapping finds no
        row, otherwise `replace` and an updated entry. */
    ghost predicate RefreshEffect(users: set<string>, s: Snapshot, g: LocalGroup, o: Outcome<Error>, s': Snapshot)
    {
      var e := RefreshEntryOf(s.rows, g);
      && s'.groups == s.groups
      && if e.bucket == AddedBucket then
          && CreateEffect(users, s.rows, s.cursor, s.log, g, o, s'.rows, s'.cursor, s'.log)
          && s'.tally == (if o.Pass? then Record(s.tally, e.kind, e.bucket, e.info) else s.tally)
        else
          && o == Pass
          && ReplaceEffect(users, s.rows, s.cursor, s.log, g, s'.rows, s'.cursor, s'.log)
          && s'.tally == Record(s.tally, e.kind, e.bucket, e.info)
    }

    /** Refreshing one group only changes rows of its own id and only
        appends requests. */
    lemma RefreshEffectFrame(users: set<string>, s: Snapshot, g: LocalGroup, o: Outcome<Error>, s': Snapshot)
      requires RefreshEffect(users, s, g, o, s')
      ensures s.log <= s'.log && s'.groups == s.groups
      ensures forall x :: !InScope(x, GroupScope()) || x.id != g.id ==> (x in s'.rows <==> x in s.rows)
    {
      if RefreshEntryOf(s.rows, g).bucket == AddedBucket {
        CreateTouchesOnlyItsId(users, s.rows, s.cursor, s.log, g, o, s'.rows, s'.cursor, s'.log);
      } else {
        ReplaceTouchesOnlyItsId(users, s.rows, s.cursor, s.log, g, s'.rows, s'.cursor, s'.log);
      }
    }

    /** One group of `refreshResources`: create it remotely when getMapping
        finds no row and record it as added (unless the create raised),
        otherwise replace it and record it as updated. */
    method RefreshOne(g: LocalGroup, res: ScimSynchronizationResult) returns (o: Outcome<Error>)
      modifies this, store, res
      ensures RefreshEffect(dir.users, old(Now(res)), g, o, Now(res))
      ensures old(sent) <= sent
      ensures forall x :: !InScope(x, GroupScope()) || x.id != g.id ==> (x in store.rows <==> x in old(store.rows))
    {
      var a := new GroupAdapter(realmId, config.componentId, store, dir);
      a.ApplyLocal(g);
      var info := a.Info();
      var mapping := a.GetMapping();
      if mapping.None? {
        o := Create(g);
        CreateTouchesOnlyItsId(dir.users, old(store.rows), old(cursor), old(sent), g, o, store.rows, cursor, sent);
        if o.Fail? {
          return;
        }
        TrackAdded(res, GroupKind, info);
      } else {
        Replace(g);
        ReplaceTouchesOnlyItsId(dir.users, old(store.rows), old(cursor), old(sent), g, store.rows, cursor, sent);
        TrackUpdated(res, GroupKind, info);
        o := Pass;
      }
    }

    /** Refreshing one group without raising, as a step of a walk. */
    ghost function Refreshes(users: set<string>): (Snapshot, LocalGroup, Snapshot) -> bool
    {
      (s: Snapshot, g: LocalGroup, s': Snapshot) => RefreshEffect(users, s, g, Pass, s')
    }

    /** The groups `gs` refreshed one after the other through the
        snapshots `ss`, none of them raising. */
    ghost predicate RefreshChain(users: set<string>, gs: seq<LocalGroup>, ss: seq<Snapshot>)
    {
      Chain(Refreshes(users), gs, ss)
    }

    /** A walk of `refreshResources` over `gs` that ends in `s'` with
        outcome `o`: the groups before the first create that raised are
        refreshed through `ss`, recording `entries`; then, on failure, the
        group that raised. */
    ghost predicate RefreshRun(users: set<string>, gs: seq<LocalGroup>, o: Outcome<Error>, entries: seq<Entry>,
                               ss: seq<Snapshot>, s': Snapshot)
    {
      && |entries| <= |gs| && |ss| == |entries| + 1
      && RefreshChain(users, gs[..|entries|], ss)
      && (forall j :: 0 <= j < |entries| ==> entries[j] == RefreshEntryOf(ss[j].rows, gs[j]))
      && (o.Pass? ==> |entries| == |gs| && ss[|entries|] == s')
      && (o.Fail? ==> |entries| < |gs| && RefreshEffect(users, ss[|entries|], gs[|entries|], o, s'))
    }

    /** `refreshResources`: every group of the resource stream in stream
        order, one entry each; a create that raises ends the walk. Each
        entry is decided by the table before the walk, a group that had a
        row keeps its rows, and a group created from no row has exactly one
        row afterwards. */
    method RefreshResources(res: ScimSynchronizationResult)
      returns (o: Outcome<Error>, ghost stream: seq<LocalGroup>, ghost entries: seq<Entry>, ghost ss: seq<Snapshot>)
      requires dir.Valid()
      modifies this, store, res
      ensures IsResourceStream(dir.groups, realmComponent, oracles.matches, stream)
      ensures ss != [] && ss[0] == old(Now(res))
      ensures RefreshRun(dir.users, stream, o, entries, ss, Now(res))
      ensures res.View() == Replay(old(res.View()), entries)
      ensures forall j :: 0 <= j < |entries| ==> entries[j] == RefreshEntryOf(old(store.rows), stream[j])
      ensures forall j :: 0 <= j < |entries| && LookupMapping(old(store.rows), GroupScope(), Some(stream[j].id), None).Some? ==>
        Select(store.rows, GroupScope(), FindById, Some(stream[j].id)) == Select(old(store.rows), GroupScope(), FindById, Some(stream[j].id))
      ensures forall j :: 0 <= j < |entries| && stream[j].scimSkip != Some("true")
                          && Select(old(store.rows), GroupScope(), FindById, Some(stream[j].id)) == {} ==>
        |Select(store.rows, GroupScope(), FindById, Some(stream[j].id))| == 1
      ensures old(sent) <= sent
      ensures forall x :: !InScope(x, GroupScope()) || x.id !in Ids(stream) ==> (x in store.rows <==> x in old(store.rows))
    {
      var gs := FilteredGroups(dir.groups, realmComponent, oracles.matches);
      stream := gs;
      o, entries, ss := RefreshStream(gs, res);
      StreamIdsUnique(dir.groups, realmComponent, oracles.matches, gs);
      forall j | 0 <= j < |entries|
        ensures entries[j] == RefreshEntryOf(old(store.rows), gs[j])
        ensures LookupMapping(old(store.rows), GroupScope(), Some(gs[j].id), None).Some? ==>
          Select(store.rows, GroupScope(), FindById, Some(gs[j].id)) == Select(old(store.rows), GroupScope(), FindById, Some(gs[j].id))
        ensures gs[j].scimSkip != Some("true") && Select(old(store.rows), GroupScope(), FindById, Some(gs[j].id)) == {} ==>
          |Select(store.rows, GroupScope(), FindById, Some(gs[j].id))| == 1
      {
        RefreshRunAt(dir.users, gs, o, entries, ss, Now(res), j);
      }
    }

    /** What a walk over groups of unique ids says of its `j`-th group: its
        entry, and its rows at the end, follow from the table before the
        walk. */
    lemma RefreshRunAt(users: set<string>, gs: seq<LocalGroup>, o: Outcome<Error>, entries: seq<Entry>,
                       ss: seq<Snapshot>, s': Snapshot, j: nat)
      requires RefreshRun(users, gs, o, entries, ss, s') && UniqueIds(gs) && j < |entries|
      ensures entries[j] == RefreshEntryOf(ss[0].rows, gs[j])
      ensures LookupMapping(ss[0].rows, GroupScope(), Some(gs[j].id), None).Some? ==>
        Select(s'.rows, GroupScope(), FindById, Some(gs[j].id)) == Select(ss[0].rows, GroupScope(), FindById, Some(gs[j].id))
      ensures gs[j].scimSkip != Some("true") && Select(ss[0].rows, GroupScope(), FindById, Some(gs[j].id)) == {} ==>
        |Select(s'.rows, GroupScope(), FindById, Some(gs[j].id))| == 1
    {
      var n := |entries|;
      var id := gs[j].id;
      var sel := Select(ss[0].rows, GroupScope(), FindById, Some(id));
      forall k | 0 <= k < j ensures gs[..n][k].id != id { assert gs[k].id != gs[j].id; }
      RefreshChainOtherIds(users, gs[..n], ss, id, 0, j);
      assert Select(ss[j].rows, GroupScope(), FindById, Some(id)) == sel;
      RefreshChainAt(users, gs[..n], ss, j);
      assert gs[..n][j] == gs[j];
      var after := Select(ss[j + 1].rows, GroupScope(), FindById, Some(id));
      forall k | j + 1 <= k < n ensures gs[..n][k].id != id { assert gs[k].id != gs[j].id; }
      RefreshChainOtherIds(users, gs[..n], ss, id, j + 1, n);
      var last := Select(ss[n].rows, GroupScope(), FindById, Some(id));
      assert last == after;
      var fin := Select(s'.rows, GroupScope(), FindById, Some(id));
      if o.Fail? {
        RefreshEffectFrame(users, ss[n], gs[n], o, s');
        assert gs[n].id != id;
        SelectSameRows(ss[n].rows, s'.rows, gs[n].id, id);
      }
      assert fin == after;
      LookupBySelect(ss[j].rows, ss[0].rows, id);
      if LookupMapping(ss[0].rows, GroupScope(), Some(id), None).Some? {
        ReplaceKeepsRows(users, ss[j].rows, ss[j].cursor, ss[j].log, gs[j], ss[j + 1].rows, ss[j + 1].cursor, ss[j + 1].log);
      } else if gs[j].scimSkip != Some("true") && sel == {} {
        CreateAddsOneRow(users, ss[j].rows, ss[j].cursor, ss[j].log, gs[j], ss[j + 1].rows, ss[j + 1].cursor, ss[j + 1].log);
      }
    }

    /** Two tables that differ only in rows of the id `gid` have the same
        rows of any other id. */
    lemma SelectSameRows(rows: set<Mapping>, rows': set<Mapping>, gid: string, id: string)
      requires forall x :: !InScope(x, GroupScope()) || x.id != gid ==> (x in rows' <==> x in rows)
      requires id != gid
      ensures Select(rows', GroupScope(), FindById, Some(id)) == Select(rows, GroupScope(), FindById, Some(id))
    {
    }

    lemma LookupBySelect(rows: set<Mapping>, rows': set<Mapping>, id: string)
      requires Select(rows, GroupScope(), FindById, Some(id)) == Select(rows', GroupScope(), FindById, Some(id))
      ensures LookupMapping(rows, GroupScope(), Some(id), None) == LookupMapping(rows', GroupScope(), Some(id), None)
    {
    }

    /** A successful create of a group without a row leaves it exactly one. */
    lemma CreateAddsOneRow(users: set<string>, rows: set<Mapping>, cur: nat, log: seq<Request>, g: LocalGroup,
                           rows': set<Mapping>, cur': nat, log': seq<Request>)
      requires CreateEffect(users, rows, cur, log, g, Pass, rows', cur', log')
      requires Select(rows, GroupScope(), FindById, Some(g.id)) == {} && g.scimSkip != Some("true")
      ensures |Select(rows', GroupScope(), FindById, Some(g.id))| == 1
    {
      var m := MappingFor(GroupScope(), g.id, Created(Retried(server, cur, MaxAttempts).0).value.id.value);
      assert Select(rows', GroupScope(), FindById, Some(g.id)) == {m};
    }

    lemma RefreshChainAt(users: set<string>, gs: seq<LocalGroup>, ss: seq<Snapshot>, j: nat)
      requires RefreshChain(users, gs, ss) && j < |gs|
      ensures RefreshEffect(users, ss[j], gs[j], Pass, ss[j + 1])
    {
      ChainAt(Refreshes(users), gs, ss, j);
    }

    /** Refreshing the groups from the `from`-th to before the `until`-th
        leaves the rows of an id none of them has as they were. */
    lemma {:induction false} RefreshChainOtherIds(users: set<string>, gs: seq<LocalGroup>, ss: seq<Snapshot>,
                                                  id: string, from: nat, until: nat)
      requires RefreshChain(users, gs, ss) && from <= until <= |gs|
      requires forall k :: from <= k < until ==> gs[k].id != id
      ensures Select(ss[until].rows, GroupScope(), FindById, Some(id)) == Select(ss[from].rows, GroupScope(), FindById, Some(id))
      decreases until
    {
      if from < until {
        RefreshChainOtherIds(users, gs, ss, id, from, until - 1);
        RefreshChainAt(users, gs, ss, until - 1);
        RefreshEffectFrame(users, ss[until - 1], gs[until - 1], Pass, ss[until]);
        SelectSameRows(ss[until - 1].rows, ss[until].rows, gs[until - 1].id, id);
      }
    }

    /** The loop of `refreshResources` over the stream. */
    method RefreshStream(gs: seq<LocalGroup>, res: ScimSynchronizationResult)
      returns (o: Outcome<Error>, ghost entries: seq<Entry>, ghost ss: seq<Snapshot>)
      modifies this, store, res
      ensures ss != [] && ss[0] == old(Now(res))
      ensures RefreshRun(dir.users, gs, o, entries, ss, Now(res))
      ensures res.View() == Replay(old(res.View()), entries)
      ensures old(sent) <= sent
      ensures forall x :: !InScope(x, GroupScope()) || x.id !in Ids(gs) ==> (x in store.rows <==> x in old(store.rows))
    {
      entries := [];
      ss := [Now(res)];
      o := Pass;
      var i := 0;
      while i < |gs| && o.Pass?
        invariant 0 <= i <= |gs| && |entries| == i && |ss| == i + 1
        invariant ss[0] == old(Now(res))
        invariant o.Pass? ==> ss[i] == Now(res)
        invariant o.Fail? ==> i < |gs| && RefreshEffect(dir.users, ss[i], gs[i], o, Now(res))
        invariant RefreshChain(dir.users, gs[..i], ss)
        invariant forall j :: 0 <= j < i ==> entries[j] == RefreshEntryOf(ss[j].rows, gs[j])
        invariant res.View() == Replay(old(res.View()), entries)
        invariant old(sent) <= sent
        invariant forall x :: !InScope(x, GroupScope()) || x.id !in Ids(gs) ==> (x in store.rows <==> x in old(store.rows))
        decreases |gs| - i, if o.Pass? then 1 else 0
      {
        o, entries, ss := RefreshStep(gs, i, res, old(res.View()), entries, ss);
        if o.Pass? {
          i := i + 1;
        }
      }
    }

    /** One group of `refreshResources`, seen from the loop: the walk
        through `gs[..i]` grows by `gs[i]`, unless its create raised. */
    method RefreshStep(gs: seq<LocalGroup>, i: nat, res: ScimSynchronizationResult, ghost t: Tally,
                       ghost entries: seq<Entry>, ghost ss: seq<Snapshot>)
      returns (o: Outcome<Error>, ghost entries': seq<Entry>, ghost ss': seq<Snapshot>)
      requires i < |gs| && |entries| == i && |ss| == i + 1 && ss[i] == Now(res)
      requires RefreshChain(dir.users, gs[..i], ss)
      requires forall j :: 0 <= j < i ==> entries[j] == RefreshEntryOf(ss[j].rows, gs[j])
      requires res.View() == Replay(t, entries)
      modifies this, store, res
      ensures o.Pass? ==>
        && |entries'| == i + 1 && |ss'| == i + 2 && ss'[0] == ss[0] && ss'[i + 1] == Now(res)
        && RefreshChain(dir.users, gs[..i + 1], ss')
        && (forall j :: 0 <= j < i + 1 ==> entries'[j] == RefreshEntryOf(ss'[j].rows, gs[j]))
        && res.View() == Replay(t, entries')
      ensures o.Fail? ==>
        && entries' == entries && ss' == ss
        && RefreshEffect(dir.users, ss[i], gs[i], o, Now(res)) && res.View() == Replay(t, entries')
      ensures old(sent) <= sent
      ensures forall x :: !InScope(x, GroupScope()) || x.id != gs[i].id ==> (x in store.rows <==> x in old(store.rows))
    {
      ghost var s := Now(res);
      o := RefreshOne(gs[i], res);
      if o.Fail? {
        entries', ss' := entries, ss;
        return;
      }
      entries', ss' := RefreshExtend(dir.users, gs, i, t, entries, ss, Now(res));
    }

    /** The walk through `gs[..i]` followed by a refresh of `gs[i]` that
        did not raise is a walk through `gs[..i + 1]`. */
    lemma RefreshExtend(users: set<string>, gs: seq<LocalGroup>, i: nat, t: Tally,
                        entries: seq<Entry>, ss: seq<Snapshot>, s': Snapshot)
      returns (entries': seq<Entry>, ss': seq<Snapshot>)
      requires i < |gs| && |entries| == i && |ss| == i + 1
      requires RefreshChain(users, gs[..i], ss)
      requires forall j :: 0 <= j < i ==> entries[j] == RefreshEntryOf(ss[j].rows, gs[j])
      requires ss[i].tally == Replay(t, entries)
      requires RefreshEffect(users, ss[i], gs[i], Pass, s')
      ensures entries' == entries + [RefreshEntryOf(ss[i].rows, gs[i])] && ss' == ss + [s']
      ensures RefreshChain(users, gs[..i + 1], ss')
      ensures forall j :: 0 <= j < i + 1 ==> entries'[j] == RefreshEntryOf(ss'[j].rows, gs[j])
      ensures s'.tally == Replay(t, entries')
    {
      var e := RefreshEntryOf(ss[i].rows, gs[i]);
      ReplaySnoc(t, entries, e);
      entries' := entries + [e];
      ss' := ss + [s'];
      ChainSnoc(Refreshes(users), gs, i, ss, s');
      forall j | 0 <= j < i + 1 ensures entries'[j] == RefreshEntryOf(ss'[j].rows, gs[j]) {
        if j < i { assert entries'[j] == entries[j] && ss'[j] == ss[j]; }
      }
    }

    // -------------------------------------------------------------------
    // importResources

    /** What importing one remote group does to the directory's groups, the
        table, the request count and log, and the result. */
    ghost predicate ImportEffect(gs: seq<LocalGroup>, users: set<string>, rows: set<Mapping>, cur: nat, log: seq<Request>,
                                 t: Tally, rg: RemoteGroup,
                                 gs': seq<LocalGroup>, rows': set<Mapping>, cur': nat, log': seq<Request>, t': Tally)
    {
      if !Complete(rg) then
        gs' == gs && rows' == rows && cur' == cur && log' == log && t' == Replay(t, [ProcessingFailed(rg)])
      else
        AppliedEffect(gs, users, rows, cur, log, t, rg, gs', rows', cur', log', t')
    }

    /** The import of a remote group that could be applied: a valid row
        skips it; a dangling row (its local group is gone) is deleted, and
        the rest is what `UnlinkedEffect` says. */
    ghost predicate AppliedEffect(gs: seq<LocalGroup>, users: set<string>, rows: set<Mapping>, cur: nat, log: seq<Request>,
                                  t: Tally, rg: RemoteGroup,
                                  gs': seq<LocalGroup>, rows': set<Mapping>, cur': nat, log': seq<Request>, t': Tally)
      requires Complete(rg)
    {
      var lk := LookupMapping(rows, GroupScope(), None, rg.id);
      if lk.Some? && lk.value.id in Ids(gs) then
        gs' == gs && rows' == rows && cur' == cur && log' == log && t' == t
      else
        var members := if |rg.members| > 0 then Incoming(rows, UserScope(), rg.members) else {};
        UnlinkedEffect(gs, users, if lk.Some? then rows - {lk.value} else rows, cur, log, t,
                       members, rg.displayName.value, rg.id.value, if lk.Some? then Some(lk.value.id) else None,
                       gs', rows', cur', log', t')
    }

    /** The rest of the import of a remote group `ext` named `dn` that has
        no valid row (`rows` is the table once a dangling row, of local id
        `id`, is gone): a match by reference is linked without an entry;
        otherwise the import action decides. */
    ghost predicate UnlinkedEffect(gs: seq<LocalGroup>, users: set<string>, rows: set<Mapping>, cur: nat, log: seq<Request>,
                                   t: Tally, members: set<string>, dn: string, ext: string, id: Option<string>,
                                   gs': seq<LocalGroup>, rows': set<Mapping>, cur': nat, log': seq<Request>, t': Tally)
    {
      var matched := FirstSameRef(gs, oracles.sameRef, dn);
      if matched.Some? then
        && gs' == gs && cur' == cur && log' == log && t' == t
        && rows' == rows + {MappingFor(GroupScope(), Assign(id, matched).value, ext)}
      else
        ActionEffect(gs, users, rows, cur, log, t, members, dn, ext, id, gs', rows', cur', log', t')
    }

    /** What the import action does with a remote group that has no valid
        row and matches no local group: no action is a failure, CREATE_LOCAL
        creates the group, DELETE_REMOTE deletes the remote one (without
        retries), and any other value does nothing. */
    ghost predicate ActionEffect(gs: seq<LocalGroup>, users: set<string>, rows: set<Mapping>, cur: nat, log: seq<Request>,
                                 t: Tally, members: set<string>, dn: string, ext: string, id: Option<string>,
                                 gs': seq<LocalGroup>, rows': set<Mapping>, cur': nat, log': seq<Request>, t': Tally)
    {
      var info := ResourceInfo(Some(dn), None);
      if config.importAction.None? then
        && gs' == gs && rows' == rows && cur' == cur && log' == log
        && t' == Record(t, GroupKind, FailedBucket,
                        ResourceInfo(Some(dn), id) + " (processing failed: " + Message(NullImportAction) + ")")
      else if config.importAction.value == "CREATE_LOCAL" then
        cur' == cur && log' == log && CreateLocalEffect(gs, users, rows, t, members, dn, ext, gs', rows', t')
      else if config.importAction.value == "DELETE_REMOTE" then
        var rep := server(cur);
        && gs' == gs && rows' == rows && cur' == cur + 1 && log' == log + [DeleteRequest(GroupUrl(Some(ext)))]
        && t' == if rep.Answered? then Record(t, GroupKind, RemovedBucket, info)
                 else Record(t, GroupKind, FailedBucket, info + " (delete failed: " + Failure(rep).message + ")")
      else
        gs' == gs && rows' == rows && cur' == cur && log' == log && t' == t
    }

    /** CREATE_LOCAL: a new local group named `dn` with the members the
        directory knows, linked to `ext`, and recorded as added; a refused
        name is recorded as failed. */
    ghost predicate CreateLocalEffect(gs: seq<LocalGroup>, users: set<string>, rows: set<Mapping>, t: Tally,
                                      members: set<string>, dn: string, ext: string,
                                      gs': seq<LocalGroup>, rows': set<Mapping>, t': Tally)
    {
      var info := ResourceInfo(Some(dn), None);
      if dir.accepts(dn) then
        exists nid :: nid !in Ids(gs)
          && gs' == gs + [LocalGroup(nid, dn, members * users, [], None)]
          && rows' == rows + {MappingFor(GroupScope(), nid, ext)}
          && t' == Record(t, GroupKind, AddedBucket, info)
      else
        && gs' == gs && rows' == rows
        && t' == Record(t, GroupKind, FailedBucket, info + " (create failed: " + Message(GroupRefused) + ")")
    }

    /** One remote group of `importResources`; every exception is caught and
        recorded as failed. `recorded` are the entries it adds. */
    method ImportOne(rg: RemoteGroup, res: ScimSynchronizationResult) returns (ghost recorded: seq<Entry>)
      requires dir.Valid()
      modifies this, store, dir, res
      ensures dir.Valid() && dir.users == old(dir.users)
      ensures ImportEffect(old(dir.groups), dir.users, old(store.rows), old(cursor), old(sent), old(res.View()), rg,
                           dir.groups, store.rows, cursor, sent, res.View())
      ensures |recorded| <= 1 && res.View() == Replay(old(res.View()), recorded)
      ensures forall j :: 0 <= j < |recorded| ==> recorded[j].kind == GroupKind
      ensures !Complete(rg) ==> recorded == [ProcessingFailed(rg)]
      ensures old(sent) <= sent
    {
      var a := new GroupAdapter(realmId, config.componentId, store, dir);
      var applied := a.ApplyRemote(rg);
      if applied.Fail? {
        var text := a.Info() + " (processing failed: " + Message(applied.error) + ")";
        TrackFailed(res, GroupKind, text);
        recorded := [Entry(GroupKind, FailedBucket, text)];
        ReplaySnoc(old(res.View()), [], recorded[0]);
        return;
      }
      assert rg.members[..Absent(rg.members)] == rg.members;
      recorded := ImportApplied(a, rg, res);
    }

    /** `importResources` for a remote group applied to the adapter `a`:
        the row lookup by externalId, then `tryToMap` and the import action. */
    method ImportApplied(a: GroupAdapter, rg: RemoteGroup, res: ScimSynchronizationResult) returns (ghost recorded: seq<Entry>)
      requires dir.Valid() && Complete(rg)
      requires a.store == store && a.dir == dir && a.realmId == realmId && a.componentId == config.componentId
      requires a.id.None? && a.externalId == rg.id && a.displayName == rg.displayName
      requires a.members == (if |rg.members| > 0 then Incoming(store.rows, UserScope(), rg.members) else {})
      modifies this, store, dir, res, a
      ensures dir.Valid() && dir.users == old(dir.users)
      ensures AppliedEffect(old(dir.groups), dir.users, old(store.rows), old(cursor), old(sent), old(res.View()), rg,
                            dir.groups, store.rows, cursor, sent, res.View())
      ensures |recorded| <= 1 && res.View() == Replay(old(res.View()), recorded)
      ensures forall j :: 0 <= j < |recorded| ==> recorded[j].kind == GroupKind
      ensures old(sent) <= sent
    {
      var info := a.Info();
      var lk := a.GetMapping();
      if lk.Some? {
        a.ApplyMapping(lk.value);
        var found := a.EntityExists();
        if found {
          return [];
        }
        assert a.ToMapping() == lk.value;
        a.DeleteMapping();
      }
      recorded := ImportUnlinked(a, info, res);
    }

    /** Importing `rg` adds at most one entry, and exactly the failed entry
        when `rg` cannot be applied. */
    ghost predicate ImportRecords(rg: RemoteGroup, recorded: seq<Entry>)
    {
      |recorded| <= 1 && (!Complete(rg) ==> recorded == [ProcessingFailed(rg)])
    }

    /** A dangling row (its local group is gone) is deleted before
        `tryToMap`, but `setId` keeps the row's id, so a match by reference
        saves the same row again: the table ends as it began. */
    lemma DanglingRowRestoredByMatch(gs: seq<LocalGroup>, users: set<string>, rows: set<Mapping>, cur: nat, log: seq<Request>,
                                     t: Tally, rg: RemoteGroup,
                                     gs': seq<LocalGroup>, rows': set<Mapping>, cur': nat, log': seq<Request>, t': Tally)
      requires ImportEffect(gs, users, rows, cur, log, t, rg, gs', rows', cur', log', t')
      requires Complete(rg)
      requires LookupMapping(rows, GroupScope(), None, rg.id).Some?
      requires FirstSameRef(gs, oracles.sameRef, rg.displayName.value).Some?
      ensures rows' == rows && gs' == gs && t' == t
    {
      var m := LookupMapping(rows, GroupScope(), None, rg.id).value;
      if m.id !in Ids(gs) {
        assert MappingFor(GroupScope(), m.id, rg.id.value) == m;
        assert rows - {m} + {m} == rows;
      }
    }

    /** The failed entry of a remote group that cannot be applied. */
    function ProcessingFailed(rg: RemoteGroup): Entry
    {
      Entry(GroupKind, FailedBucket,
            ResourceInfo(if rg.id.None? then None else rg.displayName, None) + " (processing failed: " + Message(NoValuePresent) + ")")
    }

    /** `importResources` for a remote group without a valid row, from
        `tryToMap` on. */
    method ImportUnlinked(a: GroupAdapter, info: string, res: ScimSynchronizationResult) returns (ghost recorded: seq<Entry>)
      requires dir.Valid()
      requires a.store == store && a.dir == dir && a.realmId == realmId && a.componentId == config.componentId
      requires a.externalId.Some? && a.displayName.Some? && info == ResourceInfo(a.displayName, None)
      modifies this, store, dir, res, a
      ensures dir.Valid() && dir.users == old(dir.users)
      ensures UnlinkedEffect(old(dir.groups), dir.users, old(store.rows), old(cursor), old(sent), old(res.View()),
                             old(a.members), old(a.displayName.value), old(a.externalId.value), old(a.id),
                             dir.groups, store.rows, cursor, sent, res.View())
      ensures |recorded| <= 1 && res.View() == Replay(old(res.View()), recorded)
      ensures forall j :: 0 <= j < |recorded| ==> recorded[j].kind == GroupKind
      ensures old(sent) <= sent
    {
      var mapped := a.TryToMap(oracles.sameRef);
      if mapped {
        a.SaveMapping();
        return [];
      }
      recorded := ImportAction(a, info, res);
    }

    /** The import action for a remote group that has no valid row and
        matches no local group. */
    method ImportAction(a: GroupAdapter, info: string, res: ScimSynchronizationResult) returns (ghost recorded: seq<Entry>)
      requires dir.Valid()
      requires a.store == store && a.dir == dir && a.realmId == realmId && a.componentId == config.componentId
      requires a.externalId.Some? && a.displayName.Some? && info == ResourceInfo(a.displayName, None)
      modifies this, store, dir, res, a
      ensures dir.Valid() && dir.users == old(dir.users)
      ensures ActionEffect(old(dir.groups), dir.users, old(store.rows), old(cursor), old(sent), old(res.View()),
                           old(a.members), old(a.displayName.value), old(a.externalId.value), old(a.id),
                           dir.groups, store.rows, cursor, sent, res.View())
      ensures |recorded| <= 1 && res.View() == Replay(old(res.View()), recorded)
      ensures forall j :: 0 <= j < |recorded| ==> recorded[j].kind == GroupKind
      ensures old(sent) <= sent
    {
      if config.importAction.None? {
        var text := a.Info() + " (processing failed: " + Message(NullImportAction) + ")";
        TrackFailed(res, GroupKind, text);
        recorded := [Entry(GroupKind, FailedBucket, text)];
        ReplaySnoc(old(res.View()), [], recorded[0]);
      } else if config.importAction.value == "CREATE_LOCAL" {
        recorded := CreateLocal(a, info, res);
      } else if config.importAction.value == "DELETE_REMOTE" {
        recorded := DeleteRemote(a, info, res);
      } else {
        recorded := [];
      }
    }

    /** CREATE_LOCAL: `createEntity`, then the row and an added entry, or a
        failed entry when the directory refuses the group. */
    method CreateLocal(a: GroupAdapter, info: string, res: ScimSynchronizationResult) returns (ghost recorded: seq<Entry>)
      requires dir.Valid()
      requires a.store == store && a.dir == dir && a.realmId == realmId && a.componentId == config.componentId
      requires a.externalId.Some? && a.displayName.Some? && info == ResourceInfo(a.displayName, None)
      modifies store, dir, res, a
      ensures dir.Valid() && dir.users == old(dir.users)
      ensures CreateLocalEffect(old(dir.groups), dir.users, old(store.rows), old(res.View()),
                                old(a.members), old(a.displayName.value), old(a.externalId.value),
                                dir.groups, store.rows, res.View())
      ensures |recorded| == 1 && recorded[0].kind == GroupKind && res.View() == Replay(old(res.View()), recorded)
    {
      var created := a.CreateEntity();
      if created.Pass? {
        a.SaveMapping();
        TrackAdded(res, GroupKind, info);
        recorded := [Entry(GroupKind, AddedBucket, info)];
        assert a.ToMapping() == MappingFor(GroupScope(), a.id.value, a.externalId.value);
      } else {
        var text := info + " (create failed: " + Message(created.error) + ")";
        TrackFailed(res, GroupKind, text);
        recorded := [Entry(GroupKind, FailedBucket, text)];
      }
      ReplaySnoc(old(res.View()), [], recorded[0]);
    }

    /** DELETE_REMOTE: one DELETE of the remote group, not retried, recorded
        as removed when a response came back and as failed otherwise. */
    method DeleteRemote(a: GroupAdapter, info: string, res: ScimSynchronizationResult) returns (ghost recorded: seq<Entry>)
      requires a.externalId.Some?
      modifies this, res
      ensures cursor == old(cursor) + 1 && sent == old(sent) + [DeleteRequest(GroupUrl(a.externalId))]
      ensures res.View() == (if server(old(cursor)).Answered? then Record(old(res.View()), GroupKind, RemovedBucket, info)
                             else Record(old(res.View()), GroupKind, FailedBucket,
                                         info + " (delete failed: " + Failure(server(old(cursor))).message + ")"))
      ensures |recorded| == 1 && recorded[0].kind == GroupKind && res.View() == Replay(old(res.View()), recorded)
    {
      var rep := Send(DeleteRequest(GroupUrl(a.externalId)));
      if rep.Answered? {
        TrackRemoved(res, GroupKind, info);
        recorded := [Entry(GroupKind, RemovedBucket, info)];
      } else {
        var text := info + " (delete failed: " + Failure(rep).message + ")";
        TrackFailed(res, GroupKind, text);
        recorded := [Entry(GroupKind, FailedBucket, text)];
      }
      ReplaySnoc(old(res.View()), [], recorded[0]);
    }

    /** Importing one remote group from `s` to `s'`, recording `p`. */
    ghost predicate ImportStepEffect(users: set<string>, s: Snapshot, rg: RemoteGroup, p: seq<Entry>, s': Snapshot)
    {
      && ImportEffect(s.groups, users, s.rows, s.cursor, s.log, s.tally, rg, s'.groups, s'.rows, s'.cursor, s'.log, s'.tally)
      && ImportRecords(rg, p) && s'.tally == Replay(s.tally, p)
    }

    /** Importing one remote group, with the entries it recorded, as a step
        of a walk. */
    ghost function Imports(users: set<string>): (Snapshot, (RemoteGroup, seq<Entry>), Snapshot) -> bool
    {
      (s: Snapshot, x: (RemoteGroup, seq<Entry>), s': Snapshot) => ImportStepEffect(users, s, x.0, x.1, s')
    }

    /** The remote groups `rs` imported one after the other through the
        snapshots `ss`, the `j`-th recording `ps[j]`. */
    ghost predicate ImportChain(users: set<string>, rs: seq<RemoteGroup>, ss: seq<Snapshot>, ps: seq<seq<Entry>>)
    {
      |ps| == |rs| && Chain(Imports(users), Zip(rs, ps), ss)
    }

    /** Each listed group is imported from the state the one before it left,
        whatever happened to that one: a group that cannot be applied only
        adds its failed entry. */
    lemma ImportChainAt(users: set<string>, rs: seq<RemoteGroup>, ss: seq<Snapshot>, ps: seq<seq<Entry>>, j: nat)
      requires ImportChain(users, rs, ss, ps) && j < |rs|
      ensures ImportStepEffect(users, ss[j], rs[j], ps[j], ss[j + 1])
      ensures !Complete(rs[j]) ==>
        ss[j + 1] == ss[j].(tally := Record(ss[j].tally, GroupKind, FailedBucket, ProcessingFailed(rs[j]).info)) && ps[j] == [ProcessingFailed(rs[j])]
    {
      ChainAt(Imports(users), Zip(rs, ps), ss, j);
      if !Complete(rs[j]) {
        ReplaySnoc(ss[j].tally, [], ProcessingFailed(rs[j]));
        assert [] + [ProcessingFailed(rs[j])] == [ProcessingFailed(rs[j])];
      }
    }

    /** The import of `rs[..i]` followed by the import of `rs[i]`, which
        recorded `p`, is the import of `rs[..i + 1]`. */
    lemma ImportExtend(users: set<string>, rs: seq<RemoteGroup>, i: nat, ss: seq<Snapshot>, ps: seq<seq<Entry>>,
                       p: seq<Entry>, s': Snapshot)
      requires i < |rs| && |ss| == i + 1
      requires ImportChain(users, rs[..i], ss, ps)
      requires ImportStepEffect(users, ss[i], rs[i], p, s')
      ensures ImportChain(users, rs[..i + 1], ss + [s'], ps + [p])
    {
      ZipSnoc(rs, ps, i, p);
      ChainSnoc(Imports(users), Zip(rs[..i + 1], ps + [p]), i, ss, s');
    }

    /** Under CREATE_LOCAL, importing a complete remote group whose remote id
        has at most one row links it to a local group that exists, so the
        next import finds a valid row and skips it. The exceptions are a
        name the directory refuses and a dangling row that a match saves
        again. */
    lemma ImportLinksGroup(gs: seq<LocalGroup>, users: set<string>, rows: set<Mapping>, cur: nat, log: seq<Request>,
                           t: Tally, rg: RemoteGroup,
                           gs': seq<LocalGroup>, rows': set<Mapping>, cur': nat, log': seq<Request>, t': Tally)
      requires ImportEffect(gs, users, rows, cur, log, t, rg, gs', rows', cur', log', t')
      requires Complete(rg) && config.importAction == Some("CREATE_LOCAL") && dir.accepts(rg.displayName.value)
      requires |Select(rows, GroupScope(), FindByExternalId, rg.id)| <= 1
      requires var lk := LookupMapping(rows, GroupScope(), None, rg.id);
        !(lk.Some? && lk.value.id !in Ids(gs) && FirstSameRef(gs, oracles.sameRef, rg.displayName.value).Some?)
      ensures var lk' := LookupMapping(rows', GroupScope(), None, rg.id); lk'.Some? && lk'.value.id in Ids(gs')
    {
      var lk := LookupMapping(rows, GroupScope(), None, rg.id);
      if lk.Some? && lk.value.id in Ids(gs) {
        return;
      }
      var rows1 := if lk.Some? then rows - {lk.value} else rows;
      assert Select(rows1, GroupScope(), FindByExternalId, rg.id) == {} by {
        if lk.Some? {
          assert Select(rows, GroupScope(), FindByExternalId, rg.id) == {lk.value};
        } else {
          assert |Select(rows, GroupScope(), FindByExternalId, rg.id)| == 0;
        }
      }
      var members := if |rg.members| > 0 then Incoming(rows, UserScope(), rg.members) else {};
      var id := if lk.Some? then Some(lk.value.id) else None;
      assert UnlinkedEffect(gs, users, rows1, cur, log, t, members, rg.displayName.value, rg.id.value, id,
                            gs', rows', cur', log', t');
      UnlinkedLinksGroup(gs, users, rows1, cur, log, t, members, rg.displayName.value, rg.id.value, id,
                         gs', rows', cur', log', t');
    }

    lemma UnlinkedLinksGroup(gs: seq<LocalGroup>, users: set<string>, rows: set<Mapping>, cur: nat, log: seq<Request>,
                             t: Tally, members: set<string>, dn: string, ext: string, id: Option<string>,
                             gs': seq<LocalGroup>, rows': set<Mapping>, cur': nat, log': seq<Request>, t': Tally)
      requires UnlinkedEffect(gs, users, rows, cur, log, t, members, dn, ext, id, gs', rows', cur', log', t')
      requires config.importAction == Some("CREATE_LOCAL") && dir.accepts(dn)
      requires Select(rows, GroupScope(), FindByExternalId, Some(ext)) == {}
      requires id.None? || FirstSameRef(gs, oracles.sameRef, dn).None?
      ensures var lk' := LookupMapping(rows', GroupScope(), None, Some(ext)); lk'.Some? && lk'.value.id in Ids(gs')
    {
      var matched := FirstSameRef(gs, oracles.sameRef, dn);
      var m: Mapping;
      if matched.Some? {
        m := MappingFor(GroupScope(), matched.value, ext);
        assert rows' == rows + {m};
        assert gs' == gs;
      } else {
        assert CreateLocalEffect(gs, users, rows, t, members, dn, ext, gs', rows', t');
        var nid :| nid !in Ids(gs)
          && gs' == gs + [LocalGroup(nid, dn, members * users, [], None)]
          && rows' == rows + {MappingFor(GroupScope(), nid, ext)};
        m := MappingFor(GroupScope(), nid, ext);
        assert gs'[|gs|].id == nid;
      }
      assert Select(rows', GroupScope(), FindByExternalId, Some(ext)) == {m};
    }

    /** `importResources`: one list request, not retried, whose failure
        propagates; then every listed group in list order, each in
        isolation, from the state the one before it left. `ss[i]` is the
        state before the `i`-th group and `perResource[i]` are the entries
        it adds. */
    method ImportResources(res: ScimSynchronizationResult)
      returns (o: Outcome<Error>, ghost perResource: seq<seq<Entry>>, ghost ss: seq<Snapshot>)
      requires dir.Valid()
      modifies this, store, dir, res
      ensures dir.Valid() && dir.users == old(dir.users)
      ensures |sent| > |old(sent)| && sent[|old(sent)|] == ListRequest("url") && old(sent) <= sent
      ensures var rep := server(old(cursor));
        if rep.Answered? && rep.response.body.Listed? then
          && o == Pass
          && ImportChain(dir.users, rep.response.body.groups, ss, perResource)
          && ss[0] == old(Now(res)).(cursor := old(cursor) + 1, log := old(sent) + [ListRequest("url")])
          && ss[|ss| - 1] == Now(res)
        else
          && o == Fail(if rep.Answered? then NullResource else Failure(rep))
          && perResource == [] && ss == []
          && store.rows == old(store.rows) && dir.groups == old(dir.groups)
          && cursor == old(cursor) + 1 && sent == old(sent) + [ListRequest("url")]
      ensures res.View() == Replay(old(res.View()), Flatten(perResource))
      ensures forall e :: e in Flatten(perResource) ==> e.kind == GroupKind
    {
      var rep := Send(ListRequest("url"));
      if !rep.Answered? {
        return Fail(Failure(rep)), [], [];
      }
      if !rep.response.body.Listed? {
        return Fail(NullResource), [], [];
      }
      perResource, ss := ImportListed(rep.response.body.groups, res);
      o := Pass;
    }

    /** The loop of `importResources` over the listed groups. */
    method ImportListed(rs: seq<RemoteGroup>, res: ScimSynchronizationResult)
      returns (ghost perResource: seq<seq<Entry>>, ghost ss: seq<Snapshot>)
      requires dir.Valid()
      modifies this, store, dir, res
      ensures dir.Valid() && dir.users == old(dir.users)
      ensures old(sent) <= sent
      ensures ImportChain(dir.users, rs, ss, perResource) && ss[0] == old(Now(res)) && ss[|rs|] == Now(res)
      ensures res.View() == Replay(old(res.View()), Flatten(perResource))
      ensures forall e :: e in Flatten(perResource) ==> e.kind == GroupKind
    {
      perResource, ss := [], [Now(res)];
      var i := 0;
      while i < |rs|
        invariant 0 <= i <= |rs| && |perResource| == i && |ss| == i + 1
        invariant dir.Valid() && dir.users == old(dir.users)
        invariant old(sent) <= sent
        invariant ImportChain(dir.users, rs[..i], ss, perResource) && ss[0] == old(Now(res)) && ss[i] == Now(res)
        invariant res.View() == Replay(old(res.View()), Flatten(perResource))
        invariant forall e :: e in Flatten(perResource) ==> e.kind == GroupKind
      {
        perResource, ss := ImportStep(rs, i, res, old(res.View()), perResource, ss);
        i := i + 1;
      }
      assert rs[..|rs|] == rs;
    }

    /** One remote group of `importResources`, seen from the loop: the
        import of `rs[..i]` grows by `rs[i]`. */
    method ImportStep(rs: seq<RemoteGroup>, i: nat, res: ScimSynchronizationResult, ghost t: Tally,
                      ghost ps: seq<seq<Entry>>, ghost ss: seq<Snapshot>)
      returns (ghost ps': seq<seq<Entry>>, ghost ss': seq<Snapshot>)
      requires dir.Valid() && i < |rs| && |ss| == i + 1 && ss[i] == Now(res)
      requires ImportChain(dir.users, rs[..i], ss, ps) && res.View() == Replay(t, Flatten(ps))
      requires forall e :: e in Flatten(ps) ==> e.kind == GroupKind
      modifies this, store, dir, res
      ensures dir.Valid() && dir.users == old(dir.users)
      ensures |ss'| == i + 2 && ss'[0] == ss[0] && ss'[i + 1] == Now(res) && |ps'| == i + 1
      ensures ImportChain(dir.users, rs[..i + 1], ss', ps')
      ensures res.View() == Replay(t, Flatten(ps'))
      ensures forall e :: e in Flatten(ps') ==> e.kind == GroupKind
      ensures old(sent) <= sent
    {
      var recorded := ImportOne(rs[i], res);
      GroupStepsSnoc(t, ps, recorded, res.View());
      ImportExtend(dir.users, rs, i, ss, ps, recorded, Now(res));
      ps' := ps + [recorded];
      ss' := ss + [Now(res)];
    }

    // -------------------------------------------------------------------
    // sync

    /** `sync`: the import when "sync-import" is on (its failure ends the
        call), then the refresh when "sync-refresh" is on, from the state
        the import left. `imported` and `perResource` are the import's
        snapshots and entries, `stream`, `entries` and `refreshed` the
        refresh's. */
    method Sync(res: ScimSynchronizationResult)
      returns (o: Outcome<Error>, ghost perResource: seq<seq<Entry>>, ghost imported: seq<Snapshot>,
               ghost stream: seq<LocalGroup>, ghost entries: seq<Entry>, ghost refreshed: seq<Snapshot>)
      requires dir.Valid()
      modifies this, store, dir, res
      ensures dir.Valid() && dir.users == old(dir.users)
      ensures old(sent) <= sent
      ensures !config.syncImport && !config.syncRefresh ==> o == Pass && Now(res) == old(Now(res))
      ensures config.syncImport ==> |sent| > |old(sent)| && sent[|old(sent)|] == ListRequest("url")
      ensures var rep := server(old(cursor));
        config.syncImport && !(rep.Answered? && rep.response.body.Listed?) ==>
          && o == Fail(if rep.Answered? then NullResource else Failure(rep))
          && Now(res) == old(Now(res)).(cursor := old(cursor) + 1, log := old(sent) + [ListRequest("url")])
      ensures var rep := server(old(cursor));
        config.syncImport && rep.Answered? && rep.response.body.Listed? ==>
          && ImportChain(dir.users, rep.response.body.groups, imported, perResource)
          && imported[0] == old(Now(res)).(cursor := old(cursor) + 1, log := old(sent) + [ListRequest("url")])
          && (!config.syncRefresh ==> o == Pass && imported[|imported| - 1] == Now(res))
      ensures !config.syncImport ==> perResource == [] && imported == []
      ensures config.syncRefresh && (imported != [] || !config.syncImport) ==>
        var s0 := if imported != [] then imported[|imported| - 1] else old(Now(res));
        && IsResourceStream(s0.groups, realmComponent, oracles.matches, stream)
        && refreshed != [] && refreshed[0] == s0
        && RefreshRun(dir.users, stream, o, entries, refreshed, Now(res))
        && (forall j :: 0 <= j < |entries| ==> entries[j] == RefreshEntryOf(s0.rows, stream[j]))
        && res.View() == Replay(old(res.View()), Flatten(perResource) + entries)
    {
      o, perResource, imported, stream, entries, refreshed := Pass, [], [], [], [], [];
      if config.syncImport {
        o, perResource, imported := ImportResources(res);
        if o.Fail? {
          return;
        }
      }
      if config.syncRefresh {
        ghost var log1 := sent;
        ghost var s0 := Now(res);
        assert s0 == if imported != [] then imported[|imported| - 1] else old(Now(res));
        o, stream, entries, refreshed := RefreshResources(res);
        ReplayConcat(old(res.View()), Flatten(perResource), entries);
        assert |log1| > |old(sent)| ==> sent[|old(sent)|] == log1[|old(sent)|];
      }
    }

    /** A successful delete leaves no row for the id, when there was one. */
    lemma DeleteClearsId(rows: set<Mapping>, cur: nat, log: seq<Request>, id: string, o: Outcome<Error>,
                         rows': set<Mapping>, cur': nat, log': seq<Request>)
      requires DeleteEffect(rows, cur, log, id, o, rows', cur', log')
      requires o.Pass?
      ensures Select(rows', GroupScope(), FindById, Some(id)) == {}
    {
      var sel := Select(rows, GroupScope(), FindById, Some(id));
      if sel != {} {
        var m :| m in sel;
        assert sel == {m};
      }
    }
  }
}
