/** Which local groups a group sync pushes: every group when no filter is
    configured, otherwise the groups whose names match one of the
    comma-separated patterns of the `group-filter` option, together with
    all their subgroups, transitively. */
module GroupFilter {
  import opened Common
  import opened Sets
  import opened Directory

  // ---------------------------------------------------------------------
  // Java's String.trim and String.split(",")

  /** A character that `String.trim` removes (code point at most U+0020). */
  predicate IsTrimmed(c: char)
  {
    c <= ' '
  }

  /** The number of characters `String.trim` removes at the start. */
  function Leading(s: string): (n: nat)
    ensures n <= |s|
    ensures forall k :: 0 <= k < n ==> IsTrimmed(s[k])
    ensures n < |s| ==> !IsTrimmed(s[n])
  {
    if s != [] && IsTrimmed(s[0]) then
      var n := Leading(s[1..]);
      assert forall k :: 1 <= k < 1 + n ==> s[k] == s[1..][k - 1];
      1 + n
    else 0
  }

  /** Where the characters `String.trim` removes at the end begin. */
  function TrailingFrom(s: string): (n: nat)
    ensures n <= |s|
    ensures forall k :: n <= k < |s| ==> IsTrimmed(s[k])
    ensures n > 0 ==> !IsTrimmed(s[n - 1])
  {
    if s != [] && IsTrimmed(s[|s| - 1]) then TrailingFrom(s[..|s| - 1]) else |s|
  }

  /** `String.trim`. */
  function Trim(s: string): string
  {
    var i := Leading(s);
    if i == |s| then [] else s[i..TrailingFrom(s)]
  }

  /** `String.trim` gives the part of `s` left after removing the control
      and space characters at both ends, and no such character is left at
      either end. */
  lemma TrimSpec(s: string)
    ensures var r := Trim(s);
      && (exists i, j :: (0 <= i <= j <= |s| && r == s[i..j]
            && (forall k :: 0 <= k < i ==> IsTrimmed(s[k]))
            && (forall k :: j <= k < |s| ==> IsTrimmed(s[k]))))
      && (r != [] ==> !IsTrimmed(r[0]) && !IsTrimmed(r[|r| - 1]))
  {
    var i := Leading(s);
    var j := if i == |s| then i else TrailingFrom(s);
    assert 0 <= i <= j <= |s| && Trim(s) == s[i..j];
    assert forall k :: j <= k < |s| ==> IsTrimmed(s[k]);
  }

  /** Trimming a string without characters to trim leaves it as it is. */
  lemma {:induction false} TrimKeepsClean(s: string)
    requires s != [] && !IsTrimmed(s[0]) && !IsTrimmed(s[|s| - 1])
    ensures Trim(s) == s
  {
    assert Leading(s) == 0;
    assert TrailingFrom(s) == |s|;
  }

  /** The position of the first comma of `s`. */
  function FirstComma(s: string): (k: nat)
    requires ',' in s
    ensures k < |s| && s[k] == ',' && ',' !in s[..k]
  {
    if s[0] == ',' then 0
    else
      assert ',' in s[1..] by {
        var i :| 0 <= i < |s| && s[i] == ',';
        assert s[1..][i - 1] == ',';
      }
      var k := FirstComma(s[1..]) + 1;
      assert s[..k] == [s[0]] + s[1..][..k - 1];
      k
  }

  /** The pieces of `s` between commas, empty pieces included. */
  function Pieces(s: string): (r: seq<string>)
    ensures |r| >= 1
    ensures forall i :: 0 <= i < |r| ==> ',' !in r[i]
    decreases |s|
  {
    if ',' !in s then [s]
    else
      var k := FirstComma(s);
      [s[..k]] + Pieces(s[k + 1..])
  }

  /** Pieces joined again with commas. */
  function JoinCommas(r: seq<string>): string
    requires |r| >= 1
  {
    if |r| == 1 then r[0] else r[0] + "," + JoinCommas(r[1..])
  }

  /** Splitting at commas loses nothing: joining the pieces gives `s` back. */
  lemma {:induction false} PiecesJoin(s: string)
    ensures JoinCommas(Pieces(s)) == s
    decreases |s|
  {
    if ',' in s {
      var k := FirstComma(s);
      PiecesJoin(s[k + 1..]);
      assert Pieces(s)[1..] == Pieces(s[k + 1..]);
      assert s == s[..k] + "," + s[k + 1..];
    }
  }

  function DropTrailingEmpty(r: seq<string>): (t: seq<string>)
    ensures |t| <= |r| && t == r[..|t|]
    ensures t != [] ==> t[|t| - 1] != ""
    ensures forall i :: |t| <= i < |r| ==> r[i] == ""
  {
    if r != [] && r[|r| - 1] == "" then DropTrailingEmpty(r[..|r| - 1]) else r
  }

  /** `String.split(",")`: the whole string when it has no comma; otherwise
      the pieces between commas with the trailing empty pieces removed. */
  function SplitCommas(s: string): (r: seq<string>)
    ensures ',' !in s ==> r == [s]
    ensures ',' in s ==> |r| <= |Pieces(s)| && r == Pieces(s)[..|r|]
    ensures ',' in s ==> forall i :: |r| <= i < |Pieces(s)| ==> Pieces(s)[i] == ""
    ensures ',' in s && r != [] ==> r[|r| - 1] != ""
    ensures forall i :: 0 <= i < |r| ==> ',' !in r[i]
  {
    if ',' !in s then [s] else DropTrailingEmpty(Pieces(s))
  }

  // ---------------------------------------------------------------------
  // The configured filter

  /** The filter text: the first value of `group-filter`, or null when the
      component is not found, the option is absent or its first value is null. */
  function FilterText(component: Option<ConnectorConfig>): Option<string>
  {
    if component.None? || |component.value.groupFilter| == 0 then None
    else component.value.groupFilter[0]
  }

  /** Whether all groups of the realm are pushed. */
  predicate Unfiltered(component: Option<ConnectorConfig>)
  {
    var f := FilterText(component);
    f.None? || Trim(f.value) == ""
  }

  /** Whether a name fully matches at least one pattern. */
  predicate AnyMatch(matches: (string, string) -> bool, patterns: seq<string>, name: string)
  {
    exists k :: 0 <= k < |patterns| && matches(patterns[k], name)
  }

  /** The ids of the groups whose names match a pattern. */
  ghost function Roots(gs: seq<LocalGroup>, matches: (string, string) -> bool, patterns: seq<string>): set<string>
  {
    set i | 0 <= i < |gs| && AnyMatch(matches, patterns, gs[i].name) :: gs[i].id
  }

  // ---------------------------------------------------------------------
  // Closure under "subgroup of"

  /** The ids of the subgroups of a group. */
  function Children(gs: seq<LocalGroup>, id: string): seq<string>
  {
    var g := FindGroup(gs, id);
    if g.Some? then g.value.subGroups else []
  }

  /** A set of group ids that holds every subgroup of each of its groups. */
  ghost predicate Closed(gs: seq<LocalGroup>, t: set<string>)
  {
    forall x, k :: x in t && 0 <= k < |Children(gs, x)| ==> Children(gs, x)[k] in t
  }

  /** `c` is the smallest set that holds `roots` and is closed under subgroups. */
  ghost predicate IsClosure(gs: seq<LocalGroup>, roots: set<string>, c: set<string>)
  {
    roots <= c && Closed(gs, c) && forall t :: Closed(gs, t) && roots <= t ==> c <= t
  }

  /** The closure is determined by its roots. */
  lemma ClosureIsUnique(gs: seq<LocalGroup>, roots: set<string>, c: set<string>, d: set<string>)
    requires IsClosure(gs, roots, c) && IsClosure(gs, roots, d)
    ensures c == d
  {
  }

  lemma ChildIsGroup(gs: seq<LocalGroup>, id: string, k: nat)
    requires LinksResolve(gs) && k < |Children(gs, id)|
    ensures Children(gs, id)[k] in Ids(gs)
  {
    var g := FindGroup(gs, id).value;
    var i :| 0 <= i < |gs| && gs[i] == g;
  }

  /** `addGroupRecursively`: add a group, and, when it was not there yet,
      each of its subgroups in turn. Every group it adds has all its
      subgroups in the result, and it adds nothing that a closed set
      holding `g` would not hold. */
  method AddGroupRecursively(gs: seq<LocalGroup>, groups: set<string>, g: string) returns (r: set<string>)
    requires LinksResolve(gs) && g in Ids(gs)
    ensures groups + {g} <= r && r - groups <= Ids(gs)
    ensures forall x, k :: x in r && x !in groups && 0 <= k < |Children(gs, x)| ==> Children(gs, x)[k] in r
    ensures forall t :: Closed(gs, t) && g in t ==> r - groups <= t
    decreases |Ids(gs) - groups|
  {
    if g in groups {
      return groups;
    }
    r := groups + {g};
    var i := 0;
    while i < |Children(gs, g)|
      invariant 0 <= i <= |Children(gs, g)|
      invariant Progress(gs, groups, g, r, i)
    {
      ChildIsGroup(gs, g, i);
      assert Ids(gs) - r <= Ids(gs) - groups - {g};
      StrictSubsetSize(Ids(gs) - r, Ids(gs) - groups);
      var r' := AddGroupRecursively(gs, r, Children(gs, g)[i]);
      ProgressStep(gs, groups, g, i, r, r');
      r := r';
      i := i + 1;
    }
  }

  /** The loop invariant of `addGroupRecursively` after the first `i`
      subgroups of `g`. */
  ghost predicate Progress(gs: seq<LocalGroup>, groups: set<string>, g: string, r: set<string>, i: nat)
  {
    && groups + {g} <= r && r - groups <= Ids(gs)
    && (forall j :: 0 <= j < i && j < |Children(gs, g)| ==> Children(gs, g)[j] in r)
    && (forall x, k :: x in r && x !in groups && x != g && 0 <= k < |Children(gs, x)| ==> Children(gs, x)[k] in r)
    && (forall t :: Closed(gs, t) && g in t ==> r - groups <= t)
  }

  /** Adding the `i`-th subgroup recursively keeps the invariant. */
  lemma ProgressStep(gs: seq<LocalGroup>, groups: set<string>, g: string, i: nat, r: set<string>, r': set<string>)
    requires i < |Children(gs, g)| && g !in groups
    requires Progress(gs, groups, g, r, i)
    requires r + {Children(gs, g)[i]} <= r' && r' - r <= Ids(gs)
    requires forall x, k :: x in r' && x !in r && 0 <= k < |Children(gs, x)| ==> Children(gs, x)[k] in r'
    requires forall t :: Closed(gs, t) && Children(gs, g)[i] in t ==> r' - r <= t
    ensures Progress(gs, groups, g, r', i + 1)
  {
    forall x, k | x in r' && x !in groups && x != g && 0 <= k < |Children(gs, x)|
      ensures Children(gs, x)[k] in r'
    {
      if x in r {
        assert Children(gs, x)[k] in r;
      }
    }
    forall t | Closed(gs, t) && g in t
      ensures r' - groups <= t
    {
      assert Children(gs, g)[i] in t;
    }
  }

  /** The ids of the filtered groups: the matching groups and their
      subgroups, each id once. */
  method ClosureOfMatches(gs: seq<LocalGroup>, matches: (string, string) -> bool, patterns: seq<string>) returns (r: set<string>)
    requires LinksResolve(gs)
    ensures r <= Ids(gs)
    ensures IsClosure(gs, Roots(gs, matches, patterns), r)
  {
    r := {};
    for i := 0 to |gs|
      invariant r <= Ids(gs)
      invariant Closed(gs, r)
      invariant forall j :: 0 <= j < i && AnyMatch(matches, patterns, gs[j].name) ==> gs[j].id in r
      invariant forall t :: Closed(gs, t) && Roots(gs, matches, patterns) <= t ==> r <= t
    {
      if AnyMatch(matches, patterns, gs[i].name) {
        assert gs[i].id in Ids(gs);
        var r' := AddGroupRecursively(gs, r, gs[i].id);
        forall t | Closed(gs, t) && Roots(gs, matches, patterns) <= t
          ensures r' <= t
        {
          assert gs[i].id in t;
        }
        r := r';
      }
    }
  }

  /** Appending a group adds its id. */
  lemma IdsAppend(r: seq<LocalGroup>, g: LocalGroup)
    ensures Ids(r + [g]) == Ids(r) + {g.id}
  {
    var r' := r + [g];
    forall x | x in Ids(r') ensures x in Ids(r) + {g.id} {
      var i :| 0 <= i < |r'| && r'[i].id == x;
      if i < |r| { assert r'[i] == r[i]; }
    }
    forall x | x in Ids(r) ensures x in Ids(r') {
      var i :| 0 <= i < |r| && r[i].id == x;
      assert r'[i] == r[i];
    }
    assert r'[|r|] == g;
  }

  /** The groups of a set of ids, in the unspecified order of a hash set. */
  method StreamOf(gs: seq<LocalGroup>, ids: set<string>) returns (r: seq<LocalGroup>)
    requires ids <= Ids(gs)
    ensures Distinct(r)
    ensures forall i :: 0 <= i < |r| ==> r[i] in gs
    ensures Ids(r) == ids
  {
    r := [];
    var rest := ids;
    while rest != {}
      invariant rest <= ids
      invariant Distinct(r)
      invariant forall i :: 0 <= i < |r| ==> r[i] in gs
      invariant Ids(r) == ids - rest
      decreases |rest|
    {
      var x :| x in rest;
      var g := FindGroup(gs, x).value;
      StreamSnoc(gs, r, g);
      r := r + [g];
      rest := rest - {x};
    }
  }

  /** Appending a group of `gs` whose id is new keeps the stream free of
      duplicates and adds exactly that id. */
  lemma StreamSnoc(gs: seq<LocalGroup>, r: seq<LocalGroup>, g: LocalGroup)
    requires Distinct(r) && (forall i :: 0 <= i < |r| ==> r[i] in gs)
    requires g in gs && g.id !in Ids(r)
    ensures Distinct(r + [g]) && (forall i :: 0 <= i < |r + [g]| ==> (r + [g])[i] in gs)
    ensures Ids(r + [g]) == Ids(r) + {g.id}
  {
    IdsAppend(r, g);
    forall i | 0 <= i < |r| ensures r[i] != g {
      assert r[i].id in Ids(r);
    }
    var r' := r + [g];
    forall i, j | 0 <= i < j < |r'| ensures r'[i] != r'[j] {
      if j < |r| {
        assert r'[i] == r[i] && r'[j] == r[j];
      }
    }
  }

  /** Each part trimmed, in order. */
  function TrimAll(parts: seq<string>): (ps: seq<string>)
    ensures |ps| == |parts|
    ensures forall k :: 0 <= k < |parts| ==> ps[k] == Trim(parts[k])
  {
    if parts == [] then []
    else
      var ps := TrimAll(parts[..|parts| - 1]);
      assert forall k :: 0 <= k < |parts| - 1 ==> parts[..|parts| - 1][k] == parts[k];
      ps + [Trim(parts[|parts| - 1])]
  }

  /** The trimmed comma-separated parts of a filter text. */
  function Patterns(filter: string): seq<string>
  {
    TrimAll(SplitCommas(filter))
  }

  /** The loop that compiles the patterns: one trimmed pattern per part of
      the filter text, in order. */
  method PatternsOf(filter: string) returns (patterns: seq<string>)
    ensures patterns == Patterns(filter)
    ensures |patterns| == |SplitCommas(filter)|
    ensures forall k :: 0 <= k < |patterns| ==> patterns[k] == Trim(SplitCommas(filter)[k])
  {
    var parts := SplitCommas(filter);
    patterns := [];
    for i := 0 to |parts|
      invariant patterns == TrimAll(parts[..i])
    {
      assert parts[..i + 1][..i] == parts[..i];
      patterns := patterns + [Trim(parts[i])];
    }
    assert parts[..|parts|] == parts;
  }

  /** `r` is a stream `getFilteredGroups` can give: all groups of the realm
      in their own order when there is no filter; otherwise the closure of
      the groups matching a trimmed pattern, each group once, in any order. */
  ghost predicate IsResourceStream(gs: seq<LocalGroup>, component: Option<ConnectorConfig>, matches: (string, string) -> bool,
                                   r: seq<LocalGroup>)
  {
    && (Unfiltered(component) ==> r == gs)
    && (!Unfiltered(component) ==>
      && Distinct(r)
      && (forall i :: 0 <= i < |r| ==> r[i] in gs)
      && IsClosure(gs, Roots(gs, matches, Patterns(FilterText(component).value)), Ids(r)))
  }

  /** `getFilteredGroups`. */
  method FilteredGroups(gs: seq<LocalGroup>, component: Option<ConnectorConfig>, matches: (string, string) -> bool)
    returns (r: seq<LocalGroup>)
    requires UniqueIds(gs) && LinksResolve(gs)
    ensures IsResourceStream(gs, component, matches, r)
  {
    if Unfiltered(component) {
      return gs;
    }
    var patterns := PatternsOf(FilterText(component).value);
    var ids := ClosureOfMatches(gs, matches, patterns);
    r := StreamOf(gs, ids);
  }
}
