/** The coordinate grouper behind the driving-time matrix: the tour's
    locations, without repeats, sorted by (latitude, longitude, city name),
    then grouped by (latitude, longitude) in that order, as Java's
    `distinct().sorted(...).collect(groupingBy(..., LinkedHashMap::new, toList()))`
    does. The groups index the matrix's rows and columns. */
module CoordinateGrouping {
  import opened Text
  import opened Domain

  /** The sort order: latitude, then longitude, then city name. */
  predicate LocationBefore(a: Location, b: Location) {
    a.lat < b.lat
    || (a.lat == b.lat && (a.long < b.long || (a.long == b.long && StringLess(a.city, b.city))))
  }

  predicate LatLongBefore(a: LatLong, b: LatLong) {
    a.lat < b.lat || (a.lat == b.lat && a.long < b.long)
  }

  predicate StrictlySorted(s: seq<Location>) {
    forall i, j :: 0 <= i < j < |s| ==> LocationBefore(s[i], s[j])
  }

  lemma LocationBeforeIrreflexive(a: Location)
    ensures !LocationBefore(a, a)
  {
    StringLessIrreflexive(a.city);
  }

  lemma LocationBeforeTransitive(a: Location, b: Location, c: Location)
    requires LocationBefore(a, b) && LocationBefore(b, c)
    ensures LocationBefore(a, c)
  {
    if a.lat == b.lat == c.lat && a.long == b.long == c.long {
      StringLessTransitive(a.city, b.city, c.city);
    }
  }

  lemma LocationBeforeTotal(a: Location, b: Location)
    requires a != b
    ensures LocationBefore(a, b) || LocationBefore(b, a)
  {
    if a.lat == b.lat && a.long == b.long {
      StringLessTotal(a.city, b.city);
    }
  }

  // ---------------------------------------------------------------------
  // distinct() + sorted(...)

  /** Inserts `x` into a strictly sorted sequence, unless it is already there. */
  function Insert(x: Location, s: seq<Location>): (r: seq<Location>)
    requires StrictlySorted(s)
    ensures StrictlySorted(r)
    ensures forall l :: l in r <==> l in s || l == x
    decreases |s|
  {
    if |s| == 0 then [x]
    else if s[0] == x then s
    else if LocationBefore(x, s[0]) then
      forall j | 0 <= j < |s| ensures LocationBefore(x, s[j]) {
        if j > 0 { LocationBeforeTransitive(x, s[0], s[j]); }
      }
      [x] + s
    else
      LocationBeforeTotal(x, s[0]);
      var rest := Insert(x, s[1..]);
      forall l | l in rest
        ensures LocationBefore(s[0], l)
      {
        if l != x {
          var j :| 0 <= j < |s[1..]| && s[1..][j] == l;
          assert s[j + 1] == l;
        }
      }
      var r := [s[0]] + rest;
      assert forall j :: 1 <= j < |r| ==> r[j] in rest;
      r
  }

  /** The input's locations, each once, in sort order. */
  function SortDistinct(locs: seq<Location>): (r: seq<Location>)
    ensures StrictlySorted(r)
    ensures forall l :: l in r <==> l in locs
    decreases |locs|
  {
    if |locs| == 0 then []
    else
      var rest := SortDistinct(locs[..|locs| - 1]);
      assert forall l :: l in locs <==> l in locs[..|locs| - 1] || l == locs[|locs| - 1] by {
        assert locs == locs[..|locs| - 1] + [locs[|locs| - 1]];
      }
      Insert(locs[|locs| - 1], rest)
  }

  /** A set of locations has exactly one strictly sorted arrangement, so any
      de-duplicating sort of the same locations gives `SortDistinct`'s result. */
  lemma {:induction false} SortedArrangementUnique(a: seq<Location>, b: seq<Location>)
    requires StrictlySorted(a) && StrictlySorted(b)
    requires forall l :: l in a <==> l in b
    ensures a == b
    decreases |a|
  {
    BothEmptyOrNeither(a, b);
    if |a| > 0 {
      HeadIsLeast(a, b);
      HeadIsLeast(b, a);
      assert a[0] == b[0] by {
        if a[0] != b[0] {
          LocationBeforeTotal(a[0], b[0]);
          LocationBeforeTransitive(a[0], b[0], a[0]);
          LocationBeforeIrreflexive(a[0]);
        }
      }
      forall l
        ensures l in a[1..] <==> l in b[1..]
      {
        TailMembers(a, l);
        TailMembers(b, l);
      }
      SortedArrangementUnique(a[1..], b[1..]);
      assert a == [a[0]] + a[1..] && b == [b[0]] + b[1..];
    }
  }

  lemma BothEmptyOrNeither(a: seq<Location>, b: seq<Location>)
    requires forall l :: l in a <==> l in b
    ensures |a| == 0 <==> |b| == 0
  {
    if |a| > 0 {
      assert a[0] in a;
    }
    if |b| > 0 {
      assert b[0] in b;
    }
  }

  /** The head of a strictly sorted sequence comes before every other element of the same set. */
  lemma HeadIsLeast(a: seq<Location>, b: seq<Location>)
    requires StrictlySorted(a) && StrictlySorted(b) && |a| > 0 && |b| > 0
    requires forall l :: l in a <==> l in b
    ensures a[0] == b[0] || LocationBefore(a[0], b[0])
  {
    assert b[0] in a;
    var j :| 0 <= j < |a| && a[j] == b[0];
  }

  lemma TailMembers(a: seq<Location>, l: Location)
    requires StrictlySorted(a) && |a| > 0
    ensures l in a[1..] <==> l in a && l != a[0]
  {
    if l in a[1..] {
      var j :| 0 <= j < |a[1..]| && a[1..][j] == l;
      assert LocationBefore(a[0], a[j + 1]);
      LocationBeforeIrreflexive(a[0]);
    }
    if l in a && l != a[0] {
      var j :| 0 <= j < |a| && a[j] == l;
      assert a[1..][j - 1] == l;
    }
  }

  // ---------------------------------------------------------------------
  // groupingBy(latLong, LinkedHashMap::new, toList())

  datatype Group = Group(key: LatLong, members: seq<Location>)

  /** The map's keys: each location's (latitude, longitude), in order of first appearance. */
  function KeysInOrder(locs: seq<Location>): (keys: seq<LatLong>)
    ensures forall i, j :: 0 <= i < j < |keys| ==> keys[i] != keys[j]
    ensures forall i :: 0 <= i < |locs| ==> locs[i].Coordinates() in keys
    ensures forall k :: k in keys ==> exists i :: 0 <= i < |locs| && locs[i].Coordinates() == k
    decreases |locs|
  {
    if |locs| == 0 then []
    else
      var prefix := locs[..|locs| - 1];
      var earlier := KeysInOrder(prefix);
      var key := locs[|locs| - 1].Coordinates();
      assert forall i :: 0 <= i < |prefix| ==> locs[i] == prefix[i];
      if key in earlier then earlier else earlier + [key]
  }

  /** The list the map holds under `key`: the locations with that key, in encounter order. */
  function MembersWith(locs: seq<Location>, key: LatLong): (members: seq<Location>)
    ensures forall l :: l in members <==> l in locs && l.Coordinates() == key
    decreases |locs|
  {
    if |locs| == 0 then []
    else (if locs[0].Coordinates() == key then [locs[0]] else []) + MembersWith(locs[1..], key)
  }

  function GroupBy(locs: seq<Location>): (groups: seq<Group>)
    ensures |groups| == |KeysInOrder(locs)|
  {
    var keys := KeysInOrder(locs);
    seq(|keys|, i requires 0 <= i < |keys| => Group(keys[i], MembersWith(locs, keys[i])))
  }

  /** The groups indexing the driving-time matrix. */
  function LocationGroups(locs: seq<Location>): seq<Group> {
    GroupBy(SortDistinct(locs))
  }

  // ---------------------------------------------------------------------
  // Properties of the grouping.

  lemma {:induction false} MembersSorted(locs: seq<Location>, key: LatLong)
    requires StrictlySorted(locs)
    ensures StrictlySorted(MembersWith(locs, key))
    decreases |locs|
  {
    if |locs| > 0 {
      var rest := MembersWith(locs[1..], key);
      MembersSorted(locs[1..], key);
      forall l | l in rest
        ensures LocationBefore(locs[0], l)
      {
        var j :| 0 <= j < |locs[1..]| && locs[1..][j] == l;
        assert locs[j + 1] == l;
      }
      var r := MembersWith(locs, key);
      assert forall j :: 0 <= j < |r| && locs[0] !in r[..1] ==> r[j] in rest;
      if locs[0].Coordinates() == key {
        assert r == [locs[0]] + rest;
        assert forall j :: 1 <= j < |r| ==> r[j] in rest;
      } else {
        assert r == rest;
      }
    }
  }

  /** In a sorted sequence the coordinates never decrease, so first appearances strictly increase. */
  lemma {:induction false} KeysAscending(locs: seq<Location>)
    requires StrictlySorted(locs)
    ensures forall i, j :: 0 <= i < j < |KeysInOrder(locs)| ==> LatLongBefore(KeysInOrder(locs)[i], KeysInOrder(locs)[j])
    decreases |locs|
  {
    if |locs| > 0 {
      var prefix := locs[..|locs| - 1];
      var last := locs[|locs| - 1];
      KeysAscending(prefix);
      var earlier := KeysInOrder(prefix);
      if last.Coordinates() !in earlier {
        forall i | 0 <= i < |earlier|
          ensures LatLongBefore(earlier[i], last.Coordinates())
        {
          assert earlier[i] in earlier;
          var m :| 0 <= m < |prefix| && prefix[m].Coordinates() == earlier[i];
          assert LocationBefore(locs[m], last);
        }
      }
    }
  }

  /** Every group is non-empty, holds exactly the input locations with its key,
      and lists them by city name; the keys strictly ascend by (latitude, longitude). */
  lemma GroupsWellFormed(locs: seq<Location>)
    ensures var groups := LocationGroups(locs);
      && (forall i, j :: 0 <= i < j < |groups| ==> LatLongBefore(groups[i].key, groups[j].key))
      && (forall i :: 0 <= i < |groups| ==> |groups[i].members| > 0)
      && (forall i, l :: 0 <= i < |groups| ==>
            (l in groups[i].members <==> l in locs && l.Coordinates() == groups[i].key))
      && (forall i, m, n :: 0 <= i < |groups| && 0 <= m < n < |groups[i].members| ==>
            StringLess(groups[i].members[m].city, groups[i].members[n].city))
  {
    var sorted := SortDistinct(locs);
    var groups := LocationGroups(locs);
    KeysAscending(sorted);
    forall i | 0 <= i < |groups|
      ensures |groups[i].members| > 0
      ensures StrictlySorted(groups[i].members)
    {
      var k := groups[i].key;
      assert k == KeysInOrder(sorted)[i];
      assert k in KeysInOrder(sorted);
      var m :| 0 <= m < |sorted| && sorted[m].Coordinates() == k;
      assert sorted[m] in groups[i].members;
      MembersSorted(sorted, k);
    }
    forall i, m, n | 0 <= i < |groups| && 0 <= m < n < |groups[i].members|
      ensures StringLess(groups[i].members[m].city, groups[i].members[n].city)
    {
      var a, b := groups[i].members[m], groups[i].members[n];
      assert a in groups[i].members && b in groups[i].members;
      assert LocationBefore(a, b);
    }
  }

  /** Each location of the input belongs to exactly one group. */
  lemma ExactlyOneGroup(locs: seq<Location>, l: Location)
    requires l in locs
    ensures var groups := LocationGroups(locs);
      exists i :: 0 <= i < |groups| && l in groups[i].members
    ensures var groups := LocationGroups(locs);
      forall i, j :: 0 <= i < |groups| && 0 <= j < |groups| && l in groups[i].members && l in groups[j].members ==> i == j
  {
    var groups := LocationGroups(locs);
    GroupsWellFormed(locs);
    var sorted := SortDistinct(locs);
    var m :| 0 <= m < |sorted| && sorted[m] == l;
    var keys := KeysInOrder(sorted);
    var i :| 0 <= i < |keys| && keys[i] == l.Coordinates();
    assert l in groups[i].members;
  }

  /** The grouping depends only on which locations occur, not on their order or repeats,
      so the reader and the writer, given the same tour, index the matrix alike. */
  lemma GroupingIgnoresOrder(a: seq<Location>, b: seq<Location>)
    requires forall l :: l in a <==> l in b
    ensures LocationGroups(a) == LocationGroups(b)
  {
    SortedArrangementUnique(SortDistinct(a), SortDistinct(b));
  }
}
