/** The local identity directory of one realm, as the group adapter sees it:
    groups with their names, members, subgroups and `scim-skip` attribute,
    and the ids of the realm's users. */
module Directory {
  import opened Common
  import opened Sets

  /** A local group. `members` are user ids; `subGroups` are group ids. */
  datatype LocalGroup = LocalGroup(id: string, name: string, members: set<string>, subGroups: seq<string>, scimSkip: Option<string>)

  function Ids(gs: seq<LocalGroup>): set<string>
  {
    set i | 0 <= i < |gs| :: gs[i].id
  }

  ghost predicate UniqueIds(gs: seq<LocalGroup>)
  {
    forall i, j :: 0 <= i < j < |gs| ==> gs[i].id != gs[j].id
  }

  /** Every subgroup link names a group of the realm. */
  ghost predicate LinksResolve(gs: seq<LocalGroup>)
  {
    forall i, k :: 0 <= i < |gs| && 0 <= k < |gs[i].subGroups| ==> gs[i].subGroups[k] in Ids(gs)
  }

  /** `getGroupById`. */
  function FindGroup(gs: seq<LocalGroup>, id: string): (r: Option<LocalGroup>)
    ensures r.Some? ==> r.value in gs && r.value.id == id
    ensures r.None? <==> id !in Ids(gs)
  {
    if gs == [] then None
    else if gs[0].id == id then Some(gs[0])
    else
      var r := FindGroup(gs[1..], id);
      assert Ids(gs) == {gs[0].id} + Ids(gs[1..]) by {
        forall x | x in Ids(gs) ensures x in {gs[0].id} + Ids(gs[1..]) {
          var i :| 0 <= i < |gs| && gs[i].id == x;
          if i > 0 { assert gs[1..][i - 1] == gs[i]; }
        }
      }
      r
  }

  /** The groups after user `uid` joined group `gid`. */
  function WithMember(gs: seq<LocalGroup>, gid: string, uid: string): (r: seq<LocalGroup>)
    ensures |r| == |gs| && Ids(r) == Ids(gs)
  {
    var r := seq(|gs|, i requires 0 <= i < |gs| =>
      if gs[i].id == gid then gs[i].(members := gs[i].members + {uid}) else gs[i]);
    assert forall i :: 0 <= i < |gs| ==> r[i].id == gs[i].id;
    r
  }

  /** Joining the last group of a list, when its id is unique, only touches that group. */
  lemma JoinLast(gs: seq<LocalGroup>, g: LocalGroup, uid: string)
    requires g.id !in Ids(gs)
    ensures WithMember(gs + [g], g.id, uid) == gs + [g.(members := g.members + {uid})]
  {
    var r := WithMember(gs + [g], g.id, uid);
    forall i | 0 <= i < |gs| ensures r[i] == gs[i] {
      assert gs[i].id in Ids(gs);
    }
  }

  class LocalDirectory {
    var groups: seq<LocalGroup>
    var users: set<string>
    /** Whether the directory accepts a new group of the given name; the
        directory's own rules (a duplicate name, say) are not modelled. */
    const accepts: string -> bool

    ghost predicate Valid()
      reads this
    {
      UniqueIds(groups) && LinksResolve(groups)
    }

    constructor (groups: seq<LocalGroup>, users: set<string>, accepts: string -> bool)
      ensures this.groups == groups && this.users == users && this.accepts == accepts
    {
      this.groups := groups;
      this.users := users;
      this.accepts := accepts;
    }

    /** `session.groups().getGroupById`. */
    method GroupById(id: string) returns (r: Option<LocalGroup>)
      ensures r == FindGroup(groups, id)
    {
      r := FindGroup(groups, id);
    }

    /** `session.groups().createGroup(realm, name)`: a new top-level group
        with a fresh id, no members and no attributes. */
    method CreateGroup(name: string) returns (r: Option<LocalGroup>)
      requires Valid()
      modifies this
      ensures Valid() && users == old(users)
      ensures r.Some? <==> accepts(name)
      ensures r.Some? ==> r.value.id !in Ids(old(groups))
      ensures r.Some? ==> r.value == LocalGroup(r.value.id, name, {}, [], None)
      ensures r.Some? ==> groups == old(groups) + [r.value]
      ensures r.None? ==> groups == old(groups)
    {
      if !accepts(name) {
        return None;
      }
      FreshId(Ids(groups));
      var id :| id !in Ids(groups);
      var g := LocalGroup(id, name, {}, [], None);
      var gs := groups + [g];
      assert Ids(gs) == Ids(groups) + {id} by {
        forall x | x in Ids(gs) ensures x in Ids(groups) + {id} {
          var i :| 0 <= i < |gs| && gs[i].id == x;
          if i < |groups| { assert gs[i] == groups[i]; }
        }
        forall x | x in Ids(groups) ensures x in Ids(gs) {
          var i :| 0 <= i < |groups| && groups[i].id == x;
          assert gs[i] == groups[i];
        }
        assert gs[|groups|].id == id;
      }
      groups := gs;
      r := Some(g);
    }

    /** `user.joinGroup(group)`. */
    method JoinGroup(uid: string, gid: string)
      requires Valid()
      modifies this
      ensures Valid() && users == old(users)
      ensures groups == WithMember(old(groups), gid, uid)
    {
      groups := WithMember(groups, gid, uid);
    }
  }
}
