/** Values shared by every part of the connector model: nullable strings,
    the adapter kinds, and the oracles that stand for code the model
    does not interpret (regular expressions, reference equality). */
module Common {

  /** A Java reference that may be null. */
  datatype Option<T> = None | Some(value: T)

  /** A call that may throw: Pass, or Fail with the exception. */
  datatype Outcome<E> = Pass | Fail(error: E)

  /** The exceptions the reconciliation engine can see. */
  datatype Error =
    | TransportFailure(message: string)   // ProcessingException, left after retries
    | RequestRejected(message: string)    // ResponseException from the SCIM client
    | NoValuePresent                      // Optional.get() on an absent value
    | NullResource                        // a response without a decoded resource
    | NullImportAction                    // switch on an unset sync-import-action
    | NonUniqueResult                     // getSingleResult() with several rows
    | GroupRefused                        // the local directory refused createGroup

  /** The message text an exception carries into a result description.
      The JVM's own texts for NullPointerException and the JPA exceptions
      are not part of this model; the fixed strings stand in for them. */
  function Message(e: Error): string
  {
    match e
    case TransportFailure(m) => m
    case RequestRejected(m) => m
    case NoValuePresent => "No value present"
    case NullResource => "null"
    case NullImportAction => "null"
    case NonUniqueResult => "query did not return a unique result"
    case GroupRefused => "group could not be created"
  }

  /** Java's string conversion of a possibly null string ("null" for null). */
  function Str(s: Option<string>): string
  {
    if s.Some? then s.value else "null"
  }

  /** The two adapter kinds; `getAdapter`'s reflection is replaced by this tag. */
  datatype Kind = UserKind | GroupKind

  /** The adapter's `type` field for each kind. */
  function TypeName(k: Kind): string
  {
    match k
    case UserKind => "User"
    case GroupKind => "Group"
  }

  /** Oracles for behaviour the model leaves uninterpreted:
      `matches(pattern, name)` is a full regular-expression match, and
      `sameRef(name, displayName)` is Java's `==` on two String references,
      which does not follow from equal contents. */
  datatype Oracles = Oracles(matches: (string, string) -> bool, sameRef: (string, string) -> bool)

  /** The connector component's configuration, as far as the engine reads it. */
  datatype ConnectorConfig = ConnectorConfig(
    componentId: string,
    endpoint: string,
    groupPatchOp: bool,
    userPatchOp: bool,
    syncImport: bool,
    syncRefresh: bool,
    importAction: Option<string>,
    groupFilter: seq<Option<string>>)

  /** A guarded setter: the first non-null value a field receives is kept. */
  function Assign<T>(current: Option<T>, v: Option<T>): Option<T>
  {
    if current.None? then v else current
  }

  /** The value of a field after a series of guarded assignments. */
  function AssignAll<T>(current: Option<T>, vs: seq<Option<T>>): Option<T>
    decreases |vs|
  {
    if vs == [] then current else AssignAll(Assign(current, vs[0]), vs[1..])
  }

  /** The first non-null value of a list. */
  function FirstSome<T>(vs: seq<Option<T>>): (r: Option<T>)
    ensures r.Some? ==> exists i :: 0 <= i < |vs| && vs[i] == r
    ensures r.None? ==> forall i :: 0 <= i < |vs| ==> vs[i].None?
  {
    if vs == [] then None else if vs[0].Some? then vs[0] else FirstSome(vs[1..])
  }

  /** First write wins: after any series of setter calls, a field holds the
      first non-null value it was ever given, its earlier value included. */
  lemma {:induction false} FirstWriteWins<T>(current: Option<T>, vs: seq<Option<T>>)
    ensures AssignAll(current, vs) == FirstSome([current] + vs)
    decreases |vs|
  {
    if vs != [] {
      FirstWriteWins(Assign(current, vs[0]), vs[1..]);
      assert ([current] + vs)[1..] == vs;
      assert ([Assign(current, vs[0])] + vs[1..])[1..] == vs[1..];
    }
  }

  /** Once a field is set, no later setter call changes it. */
  lemma {:induction false} SetFieldIsSticky<T>(current: Option<T>, vs: seq<Option<T>>)
    requires current.Some?
    ensures AssignAll(current, vs) == current
    decreases |vs|
  {
    if vs != [] {
      SetFieldIsSticky(Assign(current, vs[0]), vs[1..]);
    }
  }
}
