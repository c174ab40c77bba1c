/** The adapter that translates between one local group and one remote SCIM
    Group: its identity fields, the mapping rows it reads and writes, the
    payloads it builds, and the local side effects of an import. */
module Adapters {
  import opened Common
  import opened Sets
  import opened Mappings
  import opened Directory
  import opened Remote

  /** `getSCIMEndpoint`: the adapter type followed by "s". */
  function Endpoint(k: Kind): (r: string)
    ensures |r| == |TypeName(k)| + 1 && r[..|TypeName(k)|] == TypeName(k) && r[|r| - 1] == 's'
    ensures k == GroupKind ==> r == "Groups"
  {
    TypeName(k) + "s"
  }

  /** The type, realm and component every query of an adapter of kind `k` filters by. */
  function ScopeOf(k: Kind, realmId: string, componentId: string): Scope
  {
    Scope(TypeName(k), realmId, componentId)
  }

  /** `getResourceInfo` for a group adapter. */
  function ResourceInfo(displayName: Option<string>, id: Option<string>): string
  {
    "Group(name=" + Str(displayName) + ", id=" + Str(id) + ")"
  }

  // ---------------------------------------------------------------------
  // Member resolution through the User mappings

  /** The local user id that a remote user id resolves to: the `id` of the
      single User mapping with that externalId. */
  ghost function IncomingId(rows: set<Mapping>, us: Scope, v: string): Option<string>
  {
    var s := Single(Select(rows, us, FindByExternalId, Some(v)));
    if s.Found? then Some(s.mapping.id) else None
  }

  /** The local ids of the remote member values that resolve; the others
      are dropped. */
  ghost function Incoming(rows: set<Mapping>, us: Scope, ms: seq<RemoteMember>): set<string>
    decreases |ms|
  {
    if ms == [] then {}
    else
      var v := ms[|ms| - 1].value;
      var last := if v.Some? && IncomingId(rows, us, v.value).Some? then {IncomingId(rows, us, v.value).value} else {};
      Incoming(rows, us, ms[..|ms| - 1]) + last
  }

  /** A local id is collected exactly when some member value resolves to it. */
  lemma {:induction false} IncomingHas(rows: set<Mapping>, us: Scope, ms: seq<RemoteMember>, x: string)
    ensures x in Incoming(rows, us, ms) <==>
      exists i :: 0 <= i < |ms| && ms[i].value.Some? && IncomingId(rows, us, ms[i].value.value) == Some(x)
    decreases |ms|
  {
    if ms != [] {
      var ms' := ms[..|ms| - 1];
      IncomingHas(rows, us, ms', x);
      if x in Incoming(rows, us, ms') {
        var i :| 0 <= i < |ms'| && ms'[i].value.Some? && IncomingId(rows, us, ms'[i].value.value) == Some(x);
        assert ms[i] == ms'[i];
      }
      if exists i :: 0 <= i < |ms| && ms[i].value.Some? && IncomingId(rows, us, ms[i].value.value) == Some(x) {
        var i :| 0 <= i < |ms| && ms[i].value.Some? && IncomingId(rows, us, ms[i].value.value) == Some(x);
        if i < |ms'| { assert ms'[i] == ms[i]; }
      }
    }
  }

  /** Reading the members one at a time: the prefix one longer adds the
      resolution of the next value. */
  lemma IncomingSnoc(rows: set<Mapping>, us: Scope, ms: seq<RemoteMember>, i: nat)
    requires i < |ms| && ms[i].value.Some?
    ensures var x := IncomingId(rows, us, ms[i].value.value);
      Incoming(rows, us, ms[..i + 1]) == Incoming(rows, us, ms[..i]) + (if x.Some? then {x.value} else {})
  {
    assert ms[..i + 1][..i] == ms[..i];
    assert ms[..i + 1][i] == ms[i];
  }

  /** The position of the first member without a value (the length when there is none). */
  function Absent(ms: seq<RemoteMember>): (k: nat)
    ensures k <= |ms|
    ensures forall i :: 0 <= i < k ==> ms[i].value.Some?
    ensures k < |ms| ==> ms[k].value.None?
  {
    if ms == [] then 0
    else if ms[0].value.None? then 0
    else 1 + Absent(ms[1..])
  }

  /** The remote user id a local member is sent as: the externalId of the
      single User mapping of that id, for a user the directory knows. */
  ghost function OutgoingValue(rows: set<Mapping>, users: set<string>, us: Scope, x: string): Option<string>
  {
    if x !in users then None
    else
      var s := Single(Select(rows, us, FindById, Some(x)));
      if s.Found? then Some(s.mapping.externalId) else None
  }

  ghost function Outgoing(rows: set<Mapping>, users: set<string>, us: Scope): string -> Option<string>
  {
    x => OutgoingValue(rows, users, us, x)
  }

  /** The member entries of a list of remote user ids: value and "Users/" + value. */
  function Refs(vs: seq<string>): (ms: seq<MemberRef>)
    ensures |ms| == |vs| && Values(ms) == vs
    ensures forall i :: 0 <= i < |ms| ==> ms[i].ref == "Users/" + vs[i]
  {
    if vs == [] then [] else Refs(vs[..|vs| - 1]) + [MemberRef(vs[|vs| - 1], "Users/" + vs[|vs| - 1])]
  }

  /** `p` is the payload `toSCIM(addMeta)` builds from an adapter's fields:
      payload id and externalId swap the adapter's, a member list only when
      the adapter has members, holding the resolved members in some order,
      and a meta location only when asked for. */
  ghost predicate PayloadOf(p: ScimGroup, id: Option<string>, externalId: Option<string>, displayName: Option<string>,
                            members: set<string>, f: string -> Option<string>, addMeta: bool)
  {
    && p.id == externalId && p.externalId == id && p.displayName == displayName
    && (members == {} <==> p.members.None?)
    && (p.members.Some? ==>
          && multiset(Values(p.members.value)) == Image(members, f)
          && forall i :: 0 <= i < |p.members.value| ==> p.members.value[i].ref == "Users/" + p.members.value[i].value)
    && p.meta == (if addMeta then Some(Meta(Some("Groups/" + Str(externalId)))) else None)
  }

  /** The payload's member list has at most one entry per member, and every
      entry is the resolved remote id of some member. */
  lemma PayloadMembers(p: ScimGroup, id: Option<string>, externalId: Option<string>, displayName: Option<string>,
                       members: set<string>, f: string -> Option<string>, addMeta: bool)
    requires PayloadOf(p, id, externalId, displayName, members, f, addMeta)
    ensures p.members.Some? ==> |p.members.value| <= |members|
    ensures p.members.Some? ==> forall i :: 0 <= i < |p.members.value| ==>
      exists x :: x in members && f(x) == Some(p.members.value[i].value)
  {
    if p.members.Some? {
      var ms := p.members.value;
      ImageSize(members, f);
      assert |multiset(Values(ms))| == |ms|;
      forall i | 0 <= i < |ms| ensures exists x :: x in members && f(x) == Some(ms[i].value) {
        assert Values(ms)[i] == ms[i].value;
        assert ms[i].value in multiset(Values(ms));
        ImageHas(members, f, ms[i].value);
      }
    }
  }

  /** `ops` is what `toPatchBuilder` adds: exactly one operation on path
      "members", a replacement by the resolved members in some order when
      the adapter has members, a removal without value otherwise. */
  ghost predicate PatchOf(ops: seq<PatchOperation>, members: set<string>, f: string -> Option<string>)
  {
    && |ops| == 1 && ops[0].path == "members"
    && (members != {} ==> ops[0].op == ReplaceOp && ops[0].values.Some? && multiset(ops[0].values.value) == Image(members, f))
    && (members == {} ==> ops[0].op == RemoveOp && ops[0].values.None?)
  }

  /** The id of the first group, in directory order, whose name is the same
      reference as `name`. */
  function FirstSameRef(gs: seq<LocalGroup>, sameRef: (string, string) -> bool, name: string): (r: Option<string>)
    ensures r.Some? <==> exists i :: 0 <= i < |gs| && sameRef(gs[i].name, name)
    ensures r.Some? ==> exists i :: (0 <= i < |gs| && gs[i].id == r.value && sameRef(gs[i].name, name)
      && forall j :: 0 <= j < i ==> !sameRef(gs[j].name, name))
  {
    if gs == [] then None
    else if sameRef(gs[0].name, name) then Some(gs[0].id)
    else
      var r := FirstSameRef(gs[1..], sameRef, name);
      assert forall i :: 1 <= i < |gs| ==> gs[1..][i - 1] == gs[i];
      r
  }

  // ---------------------------------------------------------------------
  // The adapter

  class GroupAdapter {
    const realmId: string
    const componentId: string
    const store: MappingStore
    const dir: LocalDirectory

    var id: Option<string>
    var externalId: Option<string>
    var skip: bool
    var displayName: Option<string>
    var members: set<string>

    constructor (realmId: string, componentId: string, store: MappingStore, dir: LocalDirectory)
      ensures this.realmId == realmId && this.componentId == componentId && this.store == store && this.dir == dir
      ensures id.None? && externalId.None? && !skip && displayName.None? && members == {}
    {
      this.realmId := realmId;
      this.componentId := componentId;
      this.store := store;
      this.dir := dir;
      id := None;
      externalId := None;
      skip := false;
      displayName := None;
      members := {};
    }

    /** The scope of the adapter's own queries, type "Group". */
    function GroupScope(): Scope
    {
      ScopeOf(GroupKind, realmId, componentId)
    }

    /** The scope of the member lookups, type "User". */
    function UserScope(): Scope
    {
      ScopeOf(UserKind, realmId, componentId)
    }

    function Info(): string
      reads this
    {
      ResourceInfo(displayName, id)
    }

    /** `setId`: only a null id is overwritten. */
    method SetId(v: Option<string>)
      modifies this
      ensures id == Assign(old(id), v)
      ensures externalId == old(externalId) && skip == old(skip) && displayName == old(displayName) && members == old(members)
    {
      if id.None? {
        id := v;
      }
    }

    /** `setExternalId`: only a null externalId is overwritten. */
    method SetExternalId(v: Option<string>)
      modifies this
      ensures externalId == Assign(old(externalId), v)
      ensures id == old(id) && skip == old(skip) && displayName == old(displayName) && members == old(members)
    {
      if externalId.None? {
        externalId := v;
      }
    }

    /** `setDisplayName`: only a null displayName is overwritten. */
    method SetDisplayName(v: Option<string>)
      modifies this
      ensures displayName == Assign(old(displayName), v)
      ensures id == old(id) && externalId == old(externalId) && skip == old(skip) && members == old(members)
    {
      if displayName.None? {
        displayName := v;
      }
    }

    /** `apply(ScimResource)`: take id and externalId from a mapping row,
        each only where the adapter has none yet. */
    method ApplyMapping(m: Mapping)
      modifies this
      ensures id == Assign(old(id), Some(m.id)) && externalId == Assign(old(externalId), Some(m.externalId))
      ensures skip == old(skip) && displayName == old(displayName) && members == old(members)
    {
      SetId(Some(m.id));
      SetExternalId(Some(m.externalId));
    }

    /** `apply(GroupModel)`: id and displayName first-write-wins, the member
        set replaced by the group's members, and `skip` set exactly when the
        group's "scim-skip" attribute is "true". */
    method ApplyLocal(g: LocalGroup)
      modifies this
      ensures id == Assign(old(id), Some(g.id)) && displayName == Assign(old(displayName), Some(g.name))
      ensures members == g.members && skip == (g.scimSkip == Some("true"))
      ensures externalId == old(externalId)
    {
      SetId(Some(g.id));
      SetDisplayName(Some(g.name));
      members := g.members;
      skip := g.scimSkip == Some("true");
    }

    /** `apply(Group)`: externalId and displayName first-write-wins; a
        non-empty remote member list replaces the member set by the local ids
        its values resolve to. An absent id, displayName or member value
        raises, leaving what was assigned before it. */
    method ApplyRemote(rg: RemoteGroup) returns (o: Outcome<Error>)
      modifies this
      ensures o.Pass? <==> Complete(rg)
      ensures o.Fail? ==> o.error == NoValuePresent
      ensures id == old(id) && skip == old(skip)
      ensures externalId == Assign(old(externalId), rg.id)
      ensures displayName == (if rg.id.None? then old(displayName) else Assign(old(displayName), rg.displayName))
      ensures rg.id.None? || rg.displayName.None? || |rg.members| == 0 ==> members == old(members)
      ensures rg.id.Some? && rg.displayName.Some? && |rg.members| > 0 ==>
        members == Incoming(store.rows, UserScope(), rg.members[..Absent(rg.members)])
    {
      if rg.id.None? {
        return Fail(NoValuePresent);
      }
      SetExternalId(rg.id);
      if rg.displayName.None? {
        return Fail(NoValuePresent);
      }
      SetDisplayName(rg.displayName);
      if |rg.members| > 0 {
        var resolved, complete := IncomingMembers(rg.members);
        members := resolved;
        if !complete {
          return Fail(NoValuePresent);
        }
      }
      o := Pass;
    }

    /** The loop of `apply(Group)` over the remote members: the local ids of
        the values before the first absent one that have a User mapping, and
        whether no value was absent. */
    method IncomingMembers(ms: seq<RemoteMember>) returns (r: set<string>, complete: bool)
      ensures r == Incoming(store.rows, UserScope(), ms[..Absent(ms)])
      ensures complete <==> Absent(ms) == |ms|
    {
      r := {};
      var i := 0;
      while i < |ms|
        invariant 0 <= i <= Absent(ms)
        invariant r == Incoming(store.rows, UserScope(), ms[..i])
      {
        var v := ms[i].value;
        if v.None? {
          return r, false;
        }
        var s := store.SingleResultOf(UserScope(), FindByExternalId, v.value);
        IncomingSnoc(store.rows, UserScope(), ms, i);
        if s.Found? {
          r := r + {s.mapping.id};
        }
        i := i + 1;
      }
      complete := true;
    }

    /** The resolved remote ids of the members, one per member that exists
        locally and has a User mapping, in hash-set order. */
    method OutgoingValues() returns (vs: seq<string>)
      ensures multiset(vs) == Image(members, Outgoing(store.rows, dir.users, UserScope()))
    {
      ghost var f := Outgoing(store.rows, dir.users, UserScope());
      vs := [];
      var rest := members;
      while rest != {}
        invariant rest <= members
        invariant multiset(vs) + Image(rest, f) == Image(members, f)
        decreases |rest|
      {
        var x :| x in rest;
        ImageRemove(rest, f, x);
        if x in dir.users {
          var s := store.SingleResultOf(UserScope(), FindById, x);
          if s.Found? {
            vs := vs + [s.mapping.externalId];
          }
        }
        rest := rest - {x};
      }
    }

    /** `toSCIM(addMeta)`. */
    method ToScim(addMeta: bool) returns (p: ScimGroup)
      ensures PayloadOf(p, id, externalId, displayName, members, Outgoing(store.rows, dir.users, UserScope()), addMeta)
    {
      var ms: Option<seq<MemberRef>> := None;
      if members != {} {
        var vs := OutgoingValues();
        ms := Some(Refs(vs));
      }
      var meta := if addMeta then Some(Meta(Some("Groups/" + Str(externalId)))) else None;
      p := ScimGroup(externalId, id, displayName, ms, meta);
    }

    /** `toPatchBuilder`'s operations. */
    method ToPatch() returns (ops: seq<PatchOperation>)
      ensures PatchOf(ops, members, Outgoing(store.rows, dir.users, UserScope()))
    {
      if members != {} {
        var vs := OutgoingValues();
        ops := [PatchOperation("members", ReplaceOp, Some(vs))];
      } else {
        ops := [PatchOperation("members", RemoveOp, None)];
      }
    }

    /** `entityExists`: false without an id, otherwise whether the directory
        has a group of that id. */
    method EntityExists() returns (b: bool)
      ensures b <==> id.Some? && id.value in Ids(dir.groups)
    {
      if id.None? {
        return false;
      }
      var g := dir.GroupById(id.value);
      b := g.Some?;
    }

    /** `tryToMap`: true exactly when some local group's name is the same
        reference as the displayName; the first such group's id is then
        offered to `setId`. */
    method TryToMap(sameRef: (string, string) -> bool) returns (b: bool)
      modifies this
      ensures var t := if displayName.Some? then FirstSameRef(dir.groups, sameRef, displayName.value) else None;
        b == t.Some? && id == (if b then Assign(old(id), t) else old(id))
      ensures externalId == old(externalId) && skip == old(skip) && displayName == old(displayName) && members == old(members)
    {
      if displayName.None? {
        return false;
      }
      var t := FirstSameRef(dir.groups, sameRef, displayName.value);
      if t.Some? {
        SetId(t);
        return true;
      }
      return false;
    }

    /** `createEntity`: a new local group named after the displayName; the
        adapter's id is overwritten with its id, bypassing `setId`, and each
        member the directory knows joins it; the others are skipped. */
    method CreateEntity() returns (o: Outcome<Error>)
      requires dir.Valid() && displayName.Some?
      modifies this, dir
      ensures dir.Valid() && dir.users == old(dir.users)
      ensures externalId == old(externalId) && skip == old(skip) && displayName == old(displayName) && members == old(members)
      ensures o.Pass? <==> dir.accepts(displayName.value)
      ensures o.Fail? ==> o.error == GroupRefused && dir.groups == old(dir.groups) && id == old(id)
      ensures o.Pass? ==> (id.Some? && id.value !in Ids(old(dir.groups))
        && dir.groups == old(dir.groups) + [LocalGroup(id.value, displayName.value, members * dir.users, [], None)])
    {
      var created := dir.CreateGroup(displayName.value);
      if created.None? {
        return Fail(GroupRefused);
      }
      var grp := created.value;
      id := Some(grp.id);
      var rest := members;
      assert (members - rest) * dir.users == {};
      assert grp.(members := {}) == grp;
      while rest != {}
        invariant rest <= members
        invariant dir.Valid() && dir.users == old(dir.users)
        invariant dir.groups == old(dir.groups) + [grp.(members := (members - rest) * dir.users)]
        decreases |rest|
        modifies dir
      {
        var uid :| uid in rest;
        if uid in dir.users {
          JoinLast(old(dir.groups), grp.(members := (members - rest) * dir.users), uid);
          dir.JoinGroup(uid, grp.id);
          assert (members - rest) * dir.users + {uid} == (members - (rest - {uid})) * dir.users;
        } else {
          assert (members - rest) * dir.users == (members - (rest - {uid})) * dir.users;
        }
        rest := rest - {uid};
      }
      assert members - rest == members;
      assert grp.(members := members * dir.users) == LocalGroup(grp.id, displayName.value, members * dir.users, [], None);
      o := Pass;
    }

    /** `toMapping`: the row of this adapter's type, realm, component, id and externalId. */
    function ToMapping(): (m: Mapping)
      reads this
      requires id.Some? && externalId.Some?
      ensures InScope(m, GroupScope()) && m.id == id.value && m.externalId == externalId.value
    {
      Mapping(TypeName(GroupKind), realmId, componentId, id.value, externalId.value)
    }

    /** `getMapping`. */
    method GetMapping() returns (r: Option<Mapping>)
      ensures r == LookupMapping(store.rows, GroupScope(), id, externalId)
    {
      if id.Some? {
        var s := store.SingleResultOf(GroupScope(), FindById, id.value);
        return FoundOrNull(s);
      }
      if externalId.Some? {
        var s := store.SingleResultOf(GroupScope(), FindByExternalId, externalId.value);
        return FoundOrNull(s);
      }
      return None;
    }

    /** `saveMapping`: persist exactly this adapter's row. */
    method SaveMapping()
      requires id.Some? && externalId.Some?
      modifies store
      ensures store.rows == old(store.rows) + {ToMapping()}
    {
      store.Persist(ToMapping());
    }

    /** `deleteMapping`: remove this adapter's row. */
    method DeleteMapping()
      requires id.Some? && externalId.Some?
      modifies store
      ensures store.rows == old(store.rows) - {ToMapping()}
    {
      store.Remove(ToMapping());
    }
  }
}
