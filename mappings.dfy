/** The mapping table: which local entity corresponds to which remote SCIM
    resource, for one resource type, realm and connector component, and the
    two named queries that read it. */
module Mappings {
  import opened Common

  /** One persisted row. `id` is the local entity's id, `externalId` the
      remote resource's id; both are key columns and never null in a row. */
  datatype Mapping = Mapping(resourceType: string, realmId: string, componentId: string, id: string, externalId: string)

  /** The parameters every query is filtered by besides its key. */
  datatype Scope = Scope(resourceType: string, realmId: string, componentId: string)

  /** The two named queries, `findById` and `findByExternalId`. */
  datatype Query = FindById | FindByExternalId

  function KeyOf(m: Mapping, q: Query): string
  {
    match q
    case FindById => m.id
    case FindByExternalId => m.externalId
  }

  predicate InScope(m: Mapping, sc: Scope)
  {
    m.resourceType == sc.resourceType && m.realmId == sc.realmId && m.componentId == sc.componentId
  }

  /** The rows a named query returns. A null key matches no row, as a SQL
      comparison with NULL never holds. */
  function Select(rows: set<Mapping>, sc: Scope, q: Query, key: Option<string>): (r: set<Mapping>)
    ensures r <= rows
    ensures forall m :: m in r ==> InScope(m, sc) && key == Some(KeyOf(m, q))
    ensures forall m :: m in rows && InScope(m, sc) && key == Some(KeyOf(m, q)) ==> m in r
    ensures key.None? ==> r == {}
  {
    set m | m in rows && InScope(m, sc) && key == Some(KeyOf(m, q))
  }

  /** What `getSingleResult()` does with a query's rows. */
  datatype SingleResult = NoResult | Found(mapping: Mapping) | NonUnique

  lemma OneElement(s: set<Mapping>, m: Mapping)
    requires |s| == 1 && m in s
    ensures s == {m}
  {
    var t := s - {m};
    assert s == t + {m};
    assert |t| == 0;
  }

  ghost function Single(s: set<Mapping>): (r: SingleResult)
    ensures r.NoResult? <==> s == {}
    ensures r.Found? <==> |s| == 1
    ensures r.Found? ==> s == {r.mapping}
  {
    if s == {} then NoResult
    else if |s| == 1 then
      var m :| m in s;
      OneElement(s, m);
      Found(m)
    else NonUnique
  }

  /** A single result, with every exception turned into null. */
  function FoundOrNull(r: SingleResult): Option<Mapping>
  {
    if r.Found? then Some(r.mapping) else None
  }

  /** `Adapter.getMapping`: look up by id when the id is set, otherwise by
      externalId; null when neither is set, on a miss, or when the query
      fails (several rows). */
  ghost function LookupMapping(rows: set<Mapping>, sc: Scope, id: Option<string>, externalId: Option<string>): (r: Option<Mapping>)
    ensures r.Some? ==> r.value in rows && InScope(r.value, sc)
    ensures id.Some? ==> (r.Some? <==> |Select(rows, sc, FindById, id)| == 1)
    ensures id.Some? && r.Some? ==> Some(r.value.id) == id && Select(rows, sc, FindById, id) == {r.value}
    ensures id.None? ==> (r.Some? <==> |Select(rows, sc, FindByExternalId, externalId)| == 1)
    ensures id.None? && r.Some? ==> Some(r.value.externalId) == externalId
    ensures id.None? && externalId.None? ==> r.None?
  {
    if id.Some? then FoundOrNull(Single(Select(rows, sc, FindById, id)))
    else if externalId.Some? then FoundOrNull(Single(Select(rows, sc, FindByExternalId, externalId)))
    else None
  }

  /** There is no externalId fallback: when the id is set and misses, a row
      that matches the externalId is not returned. */
  lemma NoExternalIdFallback(rows: set<Mapping>, sc: Scope, id: string, externalId: string, m: Mapping)
    requires m in rows && InScope(m, sc) && m.externalId == externalId
    requires Select(rows, sc, FindById, Some(id)) == {}
    ensures LookupMapping(rows, sc, Some(id), Some(externalId)) == None
  {
  }

  /** A row of another type, realm or component is never returned. */
  lemma {:induction false} LookupIsScoped(rows: set<Mapping>, sc: Scope, id: Option<string>, externalId: Option<string>, m: Mapping)
    requires m in rows && !InScope(m, sc)
    ensures LookupMapping(rows, sc, id, externalId) != Some(m)
  {
  }

  /** A row that is saved where no row had its id is what getMapping finds next. */
  lemma {:induction false} SavedRowIsFound(rows: set<Mapping>, sc: Scope, m: Mapping)
    requires InScope(m, sc)
    requires Select(rows, sc, FindById, Some(m.id)) == {}
    ensures LookupMapping(rows + {m}, sc, Some(m.id), None) == Some(m)
  {
    var s := Select(rows + {m}, sc, FindById, Some(m.id));
    assert s == {m};
  }

  /** Rows that agree on every row with a given key give that key the same answer. */
  lemma SelectAgrees(rows: set<Mapping>, rows': set<Mapping>, sc: Scope, q: Query, key: string)
    requires forall m :: KeyOf(m, q) == key ==> (m in rows <==> m in rows')
    ensures Select(rows, sc, q, Some(key)) == Select(rows', sc, q, Some(key))
  {
  }

  /** The persisted mapping table. */
  class MappingStore {
    var rows: set<Mapping>

    constructor (initial: set<Mapping>)
      ensures rows == initial
    {
      rows := initial;
    }

    /** `getResultList()` of a named query. */
    method ResultList(sc: Scope, q: Query, key: string) returns (r: set<Mapping>)
      ensures r == Select(rows, sc, q, Some(key))
    {
      r := Select(rows, sc, q, Some(key));
    }

    /** `getSingleResult()` of a named query. */
    method SingleResultOf(sc: Scope, q: Query, key: string) returns (r: SingleResult)
      ensures r == Single(Select(rows, sc, q, Some(key)))
    {
      var s := ResultList(sc, q, key);
      if s == {} {
        r := NoResult;
      } else if |s| == 1 {
        var m :| m in s;
        OneElement(s, m);
        r := Found(m);
      } else {
        r := NonUnique;
      }
    }

    /** `em.persist`. */
    method Persist(m: Mapping)
      modifies this
      ensures rows == old(rows) + {m}
    {
      rows := rows + {m};
    }

    /** `em.remove`: tolerant of a row that is already gone. */
    method Remove(m: Mapping)
      modifies this
      ensures rows == old(rows) - {m}
    {
      rows := rows - {m};
    }

    /** `em.merge` of a managed row whose externalId was changed. */
    method Overwrite(m: Mapping, m': Mapping)
      modifies this
      ensures rows == old(rows) - {m} + {m'}
    {
      rows := rows - {m} + {m'};
    }
  }
}
