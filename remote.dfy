/** The SCIM service as the engine sees it: the group resources it returns,
    the replies a request can get, the requests the engine sends, and the
    retry policy wrapped around most of them. */
module Remote {
  import opened Common

  /** A member entry of a remote group; `value` is the remote user id. */
  datatype RemoteMember = RemoteMember(value: Option<string>)

  /** A Group resource as decoded from a response. */
  datatype RemoteGroup = RemoteGroup(id: Option<string>, displayName: Option<string>, members: seq<RemoteMember>)

  /** The decoded resource of a response: none, one group, or a list response. */
  datatype Body = NoResource | One(group: RemoteGroup) | Listed(groups: seq<RemoteGroup>)

  /** A response of the server: whether the client judged it a success,
      its HTTP status, and the decoded resource. */
  datatype Response = Response(success: bool, status: int, body: Body)

  /** What sending one request gives: a transport failure (the kind the
      retry policy retries), a rejection raised by the client library
      (never retried), or a response. */
  datatype Reply =
    | Transport(message: string)
    | Rejected(message: string)
    | Answered(response: Response)

  /** The exception a reply without a response raises. */
  function Failure(rep: Reply): (e: Error)
    requires !rep.Answered?
    ensures rep.Transport? <==> e.TransportFailure?
    ensures (e.TransportFailure? || e.RequestRejected?) && e.message == rep.message
  {
    if rep.Transport? then TransportFailure(rep.message) else RequestRejected(rep.message)
  }

  /** Whether applying a group resource to an adapter gets through: its id,
      its displayName and every member value must be present. */
  predicate Complete(rg: RemoteGroup)
  {
    rg.id.Some? && rg.displayName.Some? && forall i :: 0 <= i < |rg.members| ==> rg.members[i].value.Some?
  }

  // ---------------------------------------------------------------------
  // Requests

  /** A member entry the engine sends: value and `$ref`. */
  datatype MemberRef = MemberRef(value: string, ref: string)

  datatype Meta = Meta(location: Option<string>)

  /** A Group resource the engine sends. */
  datatype ScimGroup = ScimGroup(
    id: Option<string>,
    externalId: Option<string>,
    displayName: Option<string>,
    members: Option<seq<MemberRef>>,
    meta: Option<Meta>)

  datatype PatchOp = ReplaceOp | RemoveOp

  /** One operation of a PATCH request; `values` is null for a removal. */
  datatype PatchOperation = PatchOperation(path: string, op: PatchOp, values: Option<seq<string>>)

  datatype Request =
    | CreateRequest(path: string, resource: ScimGroup)
    | UpdateRequest(url: string, resource: ScimGroup)
    | PatchRequest(url: string, operations: seq<PatchOperation>)
    | DeleteRequest(url: string)
    | ListRequest(path: string)

  /** The values of a list of member entries, in order. */
  function Values(ms: seq<MemberRef>): (vs: seq<string>)
    ensures |vs| == |ms| && forall i :: 0 <= i < |ms| ==> vs[i] == ms[i].value
  {
    if ms == [] then [] else Values(ms[..|ms| - 1]) + [ms[|ms| - 1].value]
  }

  // ---------------------------------------------------------------------
  // The retry policy

  /** Attempts the retry policy makes at most per request. */
  const MaxAttempts: nat := 10

  /** The retry policy over a script of replies: starting at position
      `from`, send again while the reply is a transport failure and attempts
      remain. Gives the reply that ends the call and the attempts used. */
  function Retried(script: nat -> Reply, from: nat, budget: nat): (r: (Reply, nat))
    requires budget >= 1
    ensures 1 <= r.1 <= budget
    ensures r.0 == script(from + r.1 - 1)
    ensures forall k :: from <= k < from + r.1 - 1 ==> script(k).Transport?
    ensures !r.0.Transport? || r.1 == budget
    decreases budget
  {
    if script(from).Transport? && budget > 1 then
      var (rep, n) := Retried(script, from + 1, budget - 1);
      (rep, n + 1)
    else
      (script(from), 1)
  }

  /** `n` copies of `x`. */
  function Repeat<T>(x: T, n: nat): (r: seq<T>)
    ensures |r| == n && forall i :: 0 <= i < n ==> r[i] == x
  {
    if n == 0 then [] else Repeat(x, n - 1) + [x]
  }
}
