/** The synchronization result: ten append-only lists of resource
    descriptions (added, updated, removed, failed and mapped, for users and
    for groups), the four counters inherited from the directory's own
    synchronization result, and the one-line status rendered from them. */
module SyncResult {
  import opened Common

  /** Which list an entry goes to. */
  datatype Bucket = AddedBucket | UpdatedBucket | RemovedBucket | FailedBucket | MappedBucket

  /** The four counters. */
  datatype Counter = AddedCount | UpdatedCount | RemovedCount | FailedCount

  /** One `add…` call. */
  datatype Entry = Entry(kind: Kind, bucket: Bucket, info: string)

  /** The whole state of a result. */
  datatype Tally = Tally(
    addedUsers: seq<string>, updatedUsers: seq<string>, removedUsers: seq<string>,
    failedUsers: seq<string>, mappedUsers: seq<string>,
    addedGroups: seq<string>, updatedGroups: seq<string>, removedGroups: seq<string>,
    failedGroups: seq<string>, mappedGroups: seq<string>,
    added: nat, updated: nat, removed: nat, failed: nat)

  const Empty: Tally := Tally([], [], [], [], [], [], [], [], [], [], 0, 0, 0, 0)

  function List(t: Tally, k: Kind, b: Bucket): seq<string>
  {
    match (k, b)
    case (UserKind, AddedBucket) => t.addedUsers
    case (UserKind, UpdatedBucket) => t.updatedUsers
    case (UserKind, RemovedBucket) => t.removedUsers
    case (UserKind, FailedBucket) => t.failedUsers
    case (UserKind, MappedBucket) => t.mappedUsers
    case (GroupKind, AddedBucket) => t.addedGroups
    case (GroupKind, UpdatedBucket) => t.updatedGroups
    case (GroupKind, RemovedBucket) => t.removedGroups
    case (GroupKind, FailedBucket) => t.failedGroups
    case (GroupKind, MappedBucket) => t.mappedGroups
  }

  /** The counter an entry increments: a mapped entry counts as updated. */
  function CounterOf(b: Bucket): Counter
  {
    match b
    case AddedBucket => AddedCount
    case UpdatedBucket => UpdatedCount
    case RemovedBucket => RemovedCount
    case FailedBucket => FailedCount
    case MappedBucket => UpdatedCount
  }

  function Count(t: Tally, c: Counter): nat
  {
    match c
    case AddedCount => t.added
    case UpdatedCount => t.updated
    case RemovedCount => t.removed
    case FailedCount => t.failed
  }

  /** The counters agree with the lists: each counter is the number of
      entries of the buckets that increment it. */
  predicate Agree(t: Tally)
  {
    && t.added == |t.addedUsers| + |t.addedGroups|
    && t.updated == |t.updatedUsers| + |t.updatedGroups| + |t.mappedUsers| + |t.mappedGroups|
    && t.removed == |t.removedUsers| + |t.removedGroups|
    && t.failed == |t.failedUsers| + |t.failedGroups|
  }

  /** One `add…` call: its description is appended to exactly one list and
      exactly the matching counter goes up by one. */
  function Record(t: Tally, k: Kind, b: Bucket, info: string): (r: Tally)
    ensures List(r, k, b) == List(t, k, b) + [info]
    ensures Count(r, CounterOf(b)) == Count(t, CounterOf(b)) + 1
    ensures Agree(t) ==> Agree(r)
  {
    match (k, b)
    case (UserKind, AddedBucket) => t.(addedUsers := t.addedUsers + [info], added := t.added + 1)
    case (UserKind, UpdatedBucket) => t.(updatedUsers := t.updatedUsers + [info], updated := t.updated + 1)
    case (UserKind, RemovedBucket) => t.(removedUsers := t.removedUsers + [info], removed := t.removed + 1)
    case (UserKind, FailedBucket) => t.(failedUsers := t.failedUsers + [info], failed := t.failed + 1)
    case (UserKind, MappedBucket) => t.(mappedUsers := t.mappedUsers + [info], updated := t.updated + 1)
    case (GroupKind, AddedBucket) => t.(addedGroups := t.addedGroups + [info], added := t.added + 1)
    case (GroupKind, UpdatedBucket) => t.(updatedGroups := t.updatedGroups + [info], updated := t.updated + 1)
    case (GroupKind, RemovedBucket) => t.(removedGroups := t.removedGroups + [info], removed := t.removed + 1)
    case (GroupKind, FailedBucket) => t.(failedGroups := t.failedGroups + [info], failed := t.failed + 1)
    case (GroupKind, MappedBucket) => t.(mappedGroups := t.mappedGroups + [info], updated := t.updated + 1)
  }

  /** Nothing but the entry's own list changes. */
  lemma RecordLeavesOtherLists(t: Tally, k: Kind, b: Bucket, info: string, k': Kind, b': Bucket)
    requires k' != k || b' != b
    ensures List(Record(t, k, b, info), k', b') == List(t, k', b')
  {
  }

  /** Nothing but the entry's own counter changes. */
  lemma RecordLeavesOtherCounters(t: Tally, k: Kind, b: Bucket, info: string, c: Counter)
    requires c != CounterOf(b)
    ensures Count(Record(t, k, b, info), c) == Count(t, c)
  {
  }

  /** A series of `add…` calls. */
  function Replay(t: Tally, es: seq<Entry>): Tally
    decreases |es|
  {
    if es == [] then t else Replay(Record(t, es[0].kind, es[0].bucket, es[0].info), es[1..])
  }

  /** One more call at the end of a series. */
  lemma {:induction false} ReplaySnoc(t: Tally, es: seq<Entry>, e: Entry)
    ensures Replay(t, es + [e]) == Record(Replay(t, es), e.kind, e.bucket, e.info)
    decreases |es|
  {
    if es == [] {
      assert [e][1..] == [];
    } else {
      assert (es + [e])[1..] == es[1..] + [e];
      ReplaySnoc(Record(t, es[0].kind, es[0].bucket, es[0].info), es[1..], e);
    }
  }

  /** A series of calls split in two. */
  lemma {:induction false} ReplayConcat(t: Tally, a: seq<Entry>, b: seq<Entry>)
    ensures Replay(t, a + b) == Replay(Replay(t, a), b)
    decreases |a|
  {
    if a == [] {
      assert a + b == b;
    } else {
      assert (a + b)[1..] == a[1..] + b;
      ReplayConcat(Record(t, a[0].kind, a[0].bucket, a[0].info), a[1..], b);
    }
  }

  /** The descriptions of the entries that go to one list, in call order. */
  function Infos(es: seq<Entry>, k: Kind, b: Bucket): seq<string>
    decreases |es|
  {
    if es == [] then []
    else (if es[0].kind == k && es[0].bucket == b then [es[0].info] else []) + Infos(es[1..], k, b)
  }

  /** When only the `add…` methods are used, the counters agree with the lists. */
  lemma {:induction false} ReplayAgrees(t: Tally, es: seq<Entry>)
    requires Agree(t)
    ensures Agree(Replay(t, es))
    decreases |es|
  {
    if es != [] {
      ReplayAgrees(Record(t, es[0].kind, es[0].bucket, es[0].info), es[1..]);
    }
  }

  /** The lists are append-only and keep call order. */
  lemma {:induction false} ReplayAppends(t: Tally, es: seq<Entry>, k: Kind, b: Bucket)
    ensures List(Replay(t, es), k, b) == List(t, k, b) + Infos(es, k, b)
    decreases |es|
  {
    if es != [] {
      var t' := Record(t, es[0].kind, es[0].bucket, es[0].info);
      ReplayAppends(t', es[1..], k, b);
      if es[0].kind != k || es[0].bucket != b {
        RecordLeavesOtherLists(t, es[0].kind, es[0].bucket, es[0].info, k, b);
      }
    }
  }

  // ---------------------------------------------------------------------
  // The status line

  /** A digit character. */
  predicate IsDigit(c: char)
  {
    '0' <= c <= '9'
  }

  /** Decimal notation of a number, as `StringBuilder.append(int)` writes it. */
  function NatToString(n: nat): (s: string)
    ensures |s| >= 1
    ensures forall i :: 0 <= i < |s| ==> IsDigit(s[i])
    ensures n < 10 ==> |s| == 1
  {
    var d := ['0', '1', '2', '3', '4', '5', '6', '7', '8', '9'][n % 10];
    if n < 10 then [d] else NatToString(n / 10) + [d]
  }

  /** The segments so far, followed by "<n><suffix>" when `n` is positive. */
  function Step(segs: seq<string>, n: nat, suffix: string): (r: seq<string>)
    ensures r == [] <==> segs == [] && n == 0
  {
    if n > 0 then segs + [NatToString(n) + suffix] else segs
  }

  /** The present segments of the status line, in their fixed order. */
  function Segments(added: nat, updated: nat, removed: nat, failed: nat, mapped: nat): seq<string>
  {
    Step(Step(Step(Step(Step([], added, " added"), updated, " updated"), removed, " removed"), failed, " failed"), mapped, " mapped")
  }

  /** Every segment starts with a digit. */
  ghost predicate DigitLed(ss: seq<string>)
  {
    forall i :: 0 <= i < |ss| ==> ss[i] != "" && IsDigit(ss[i][0])
  }

  lemma StepDigitLed(segs: seq<string>, n: nat, suffix: string)
    requires DigitLed(segs)
    ensures DigitLed(Step(segs, n, suffix))
  {
    if n > 0 {
      var r := Step(segs, n, suffix);
      assert r[|segs|] == NatToString(n) + suffix;
      assert r[|segs|][0] == NatToString(n)[0];
    }
  }

  /** Strings joined with ", ". */
  function Join(ss: seq<string>): string
    decreases |ss|
  {
    if |ss| == 0 then ""
    else if |ss| == 1 then ss[0]
    else Join(ss[..|ss| - 1]) + ", " + ss[|ss| - 1]
  }

  /** Adding a non-empty segment at the end. */
  lemma JoinAppend(ss: seq<string>, x: string)
    requires x != ""
    ensures Join(ss + [x]) == if ss == [] then x else Join(ss) + ", " + x
  {
    if ss != [] {
      assert (ss + [x])[..|ss|] == ss;
    }
  }

  /** A join of segments begins with the first segment's first character. */
  lemma {:induction false} JoinFirst(ss: seq<string>)
    requires |ss| >= 1 && ss[0] != ""
    ensures Join(ss) != "" && Join(ss)[0] == ss[0][0]
    decreases |ss|
  {
    if |ss| > 1 {
      JoinFirst(ss[..|ss| - 1]);
    }
  }

  /** `getStatus` as a reference definition: the present segments joined by
      ", ", or "No changes" when none is present. */
  function StatusText(added: nat, updated: nat, removed: nat, failed: nat, mapped: nat): string
  {
    var segs := Segments(added, updated, removed, failed, mapped);
    if segs == [] then "No changes" else Join(segs)
  }

  /** The status of a result: `mapped` is the number of mapped users and groups. */
  function StatusOf(t: Tally): string
  {
    StatusText(t.added, t.updated, t.removed, t.failed, |t.mappedUsers| + |t.mappedGroups|)
  }

  /** The status is "No changes" exactly when every counter is zero and no
      entity was mapped; any present segment starts the line with a digit. */
  lemma StatusNoChanges(added: nat, updated: nat, removed: nat, failed: nat, mapped: nat)
    ensures StatusText(added, updated, removed, failed, mapped) == "No changes" <==>
      added == 0 && updated == 0 && removed == 0 && failed == 0 && mapped == 0
  {
    var s1 := Step([], added, " added");
    var s2 := Step(s1, updated, " updated");
    var s3 := Step(s2, removed, " removed");
    var s4 := Step(s3, failed, " failed");
    StepDigitLed([], added, " added");
    StepDigitLed(s1, updated, " updated");
    StepDigitLed(s2, removed, " removed");
    StepDigitLed(s3, failed, " failed");
    StepDigitLed(s4, mapped, " mapped");
    var segs := Segments(added, updated, removed, failed, mapped);
    if segs != [] {
      JoinFirst(segs);
      assert IsDigit(Join(segs)[0]);
    }
  }

  /** Whatever the tally, a mapped entry is counted twice in the status:
      it adds one to the updated number and one to the mapped number. On
      an empty tally the status reads "1 updated, 1 mapped". */
  lemma MappedCountsTwice(t: Tally, k: Kind, info: string)
    ensures StatusOf(Record(t, k, MappedBucket, info))
         == StatusText(t.added, t.updated + 1, t.removed, t.failed, |t.mappedUsers| + |t.mappedGroups| + 1)
    ensures t == Empty ==> StatusOf(Record(t, k, MappedBucket, info)) == "1 updated, 1 mapped"
  {
    var r := Record(t, k, MappedBucket, info);
    assert r.added == t.added && r.updated == t.updated + 1 && r.removed == t.removed && r.failed == t.failed;
    assert |r.mappedUsers| + |r.mappedGroups| == |t.mappedUsers| + |t.mappedGroups| + 1;
    if t == Empty {
      OneMappedText();
    }
  }

  /** The status of a tally holding one mapped entry and nothing else. */
  lemma OneMappedText()
    ensures StatusText(0, 1, 0, 0, 1) == "1 updated, 1 mapped"
  {
    assert NatToString(1) == "1";
    assert NatToString(1) + " updated" == "1 updated";
    assert NatToString(1) + " mapped" == "1 mapped";
    assert Step([], 1, " updated") == ["1 updated"];
    assert Segments(0, 1, 0, 0, 1) == ["1 updated", "1 mapped"];
    assert Join(["1 updated", "1 mapped"]) == Join(["1 updated"]) + ", " + "1 mapped";
  }

  /** One step of `getStatus`: when the count is positive, a separator if
      the builder is not empty, then the count and its suffix. */
  method AppendCount(status: string, ghost segs: seq<string>, n: nat, suffix: string) returns (status': string)
    requires suffix != "" && status == Join(segs) && (status == "" <==> segs == [])
    ensures status' == Join(Step(segs, n, suffix)) && (status' == "" <==> Step(segs, n, suffix) == [])
  {
    status' := status;
    if n > 0 {
      JoinAppend(segs, NatToString(n) + suffix);
      if |status'| > 0 {
        status' := status' + ", ";
      }
      status' := status' + NatToString(n) + suffix;
    }
  }

  // ---------------------------------------------------------------------
  // The accumulator

  class ScimSynchronizationResult {
    var addedUsers: seq<string>
    var updatedUsers: seq<string>
    var removedUsers: seq<string>
    var failedUsers: seq<string>
    var mappedUsers: seq<string>
    var addedGroups: seq<string>
    var updatedGroups: seq<string>
    var removedGroups: seq<string>
    var failedGroups: seq<string>
    var mappedGroups: seq<string>
    var added: nat
    var updated: nat
    var removed: nat
    var failed: nat

    ghost function View(): Tally
      reads this
    {
      Tally(addedUsers, updatedUsers, removedUsers, failedUsers, mappedUsers,
            addedGroups, updatedGroups, removedGroups, failedGroups, mappedGroups,
            added, updated, removed, failed)
    }

    constructor ()
      ensures View() == Empty
    {
      addedUsers, updatedUsers, removedUsers, failedUsers, mappedUsers := [], [], [], [], [];
      addedGroups, updatedGroups, removedGroups, failedGroups, mappedGroups := [], [], [], [], [];
      added, updated, removed, failed := 0, 0, 0, 0;
    }

    method AddAddedUser(info: string)
      modifies this
      ensures View() == Record(old(View()), UserKind, AddedBucket, info)
    {
      addedUsers := addedUsers + [info];
      added := added + 1;
    }

    method AddUpdatedUser(info: string)
      modifies this
      ensures View() == Record(old(View()), UserKind, UpdatedBucket, info)
    {
      updatedUsers := updatedUsers + [info];
      updated := updated + 1;
    }

    method AddRemovedUser(info: string)
      modifies this
      ensures View() == Record(old(View()), UserKind, RemovedBucket, info)
    {
      removedUsers := removedUsers + [info];
      removed := removed + 1;
    }

    method AddFailedUser(info: string)
      modifies this
      ensures View() == Record(old(View()), UserKind, FailedBucket, info)
    {
      failedUsers := failedUsers + [info];
      failed := failed + 1;
    }

    method AddAddedGroup(info: string)
      modifies this
      ensures View() == Record(old(View()), GroupKind, AddedBucket, info)
    {
      addedGroups := addedGroups + [info];
      added := added + 1;
    }

    method AddUpdatedGroup(info: string)
      modifies this
      ensures View() == Record(old(View()), GroupKind, UpdatedBucket, info)
    {
      updatedGroups := updatedGroups + [info];
      updated := updated + 1;
    }

    method AddRemovedGroup(info: string)
      modifies this
      ensures View() == Record(old(View()), GroupKind, RemovedBucket, info)
    {
      removedGroups := removedGroups + [info];
      removed := removed + 1;
    }

    method AddFailedGroup(info: string)
      modifies this
      ensures View() == Record(old(View()), GroupKind, FailedBucket, info)
    {
      failedGroups := failedGroups + [info];
      failed := failed + 1;
    }

    /** Treated as updated. */
    method AddMappedUser(info: string)
      modifies this
      ensures View() == Record(old(View()), UserKind, MappedBucket, info)
    {
      mappedUsers := mappedUsers + [info];
      updated := updated + 1;
    }

    /** Treated as updated. */
    method AddMappedGroup(info: string)
      modifies this
      ensures View() == Record(old(View()), GroupKind, MappedBucket, info)
    {
      mappedGroups := mappedGroups + [info];
      updated := updated + 1;
    }

    /** `getStatus`, built segment by segment. */
    method GetStatus() returns (status: string)
      ensures status == StatusOf(View())
    {
      status := "";
      ghost var segs: seq<string> := [];
      status := AppendCount(status, segs, added, " added");
      segs := Step(segs, added, " added");
      status := AppendCount(status, segs, updated, " updated");
      segs := Step(segs, updated, " updated");
      status := AppendCount(status, segs, removed, " removed");
      segs := Step(segs, removed, " removed");
      status := AppendCount(status, segs, failed, " failed");
      segs := Step(segs, failed, " failed");
      var mapped := |mappedUsers| + |mappedGroups|;
      status := AppendCount(status, segs, mapped, " mapped");
      segs := Step(segs, mapped, " mapped");
      if |status| == 0 {
        status := "No changes";
      }
    }
  }
}
