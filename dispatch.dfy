/** The dispatch suggestion rule of the surveillance dashboard.

    When an undispatched incident is focused, the dashboard keeps the idle
    units with well-formed coordinates, annotates each with its distance to
    the incident, and for POLICE, FIRE and MEDICAL in that order takes the
    head of that type's units sorted by distance.  The distance function is
    a parameter: every property below holds whatever it computes.
 */
module Dispatch {
  import opened Records

  /** A JavaScript value passed to the coordinate validator: either not an
      array at all, or an array whose entries may be null or undefined. */
  datatype CoordValue = NotArray | ArrayValue(items: seq<Option<real>>)

  /** `isValidCoord`: an array of length 2 whose two entries are non-null. */
  predicate IsValidCoord(c: CoordValue) {
    c.ArrayValue? && |c.items| == 2 && c.items[0].Some? && c.items[1].Some?
  }

  /** `getDistanceKm(lat1, lon1, lat2, lon2)`, left abstract. */
  type Distance = (real, real, real, real) -> real

  /** A unit annotated with its distance to the focused incident. */
  datatype Candidate = Candidate(unit: ForceUnit, distance: real)

  predicate IsIdleWithCoords(u: ForceUnit) {
    u.status == IDLE && IsValidCoord(ArrayValue(u.coordinates))
  }

  function DistanceTo(at: Coordinates, u: ForceUnit, dist: Distance): real
    requires IsValidCoord(ArrayValue(at)) && IsValidCoord(ArrayValue(u.coordinates))
  {
    dist(at[0].value, at[1].value, u.coordinates[0].value, u.coordinates[1].value)
  }

  /** `Array.prototype.filter`. */
  function Filter<T>(s: seq<T>, p: T -> bool): (r: seq<T>)
    ensures |r| <= |s|
    ensures forall x :: x in r ==> x in s && p(x)
    ensures forall i :: 0 <= i < |s| && p(s[i]) ==> s[i] in r
  {
    if s == [] then []
    else if p(s[0]) then [s[0]] + Filter(s[1..], p)
    else Filter(s[1..], p)
  }

  /** Filtering keeps the input's order: it distributes over concatenation,
      so the kept elements of an earlier part precede those of a later one. */
  lemma {:induction false} FilterAppend<T>(a: seq<T>, b: seq<T>, p: T -> bool)
    ensures Filter(a + b, p) == Filter(a, p) + Filter(b, p)
    decreases |a|
  {
    if a != [] {
      FilterAppend(a[1..], b, p);
      assert (a + b)[1..] == a[1..] + b;
    } else {
      assert a + b == b;
    }
  }

  /** `map(u => ({...u, distance}))` over units with valid coordinates. */
  function Annotate(units: seq<ForceUnit>, at: Coordinates, dist: Distance): (r: seq<Candidate>)
    requires IsValidCoord(ArrayValue(at))
    requires forall u :: u in units ==> IsValidCoord(ArrayValue(u.coordinates))
    ensures |r| == |units|
    ensures forall i :: 0 <= i < |r| ==> r[i] == Candidate(units[i], DistanceTo(at, units[i], dist))
  {
    if units == [] then []
    else [Candidate(units[0], DistanceTo(at, units[0], dist))] + Annotate(units[1..], at, dist)
  }

  /** `idleUnits` in `focusOnIncident`: the idle, well-placed units with distances. */
  function IdleCandidates(units: seq<ForceUnit>, at: Coordinates, dist: Distance): seq<Candidate>
    requires IsValidCoord(ArrayValue(at))
  {
    Annotate(Filter(units, IsIdleWithCoords), at, dist)
  }

  function OfType(cands: seq<Candidate>, kind: string): seq<Candidate> {
    Filter(cands, (c: Candidate) => c.unit.kind == Some(kind))
  }

  predicate SortedByDistance(s: seq<Candidate>) {
    forall i, j :: 0 <= i < j < |s| ==> s[i].distance <= s[j].distance
  }

  /** Inserts `c` before the first element that is not nearer than it. */
  function Insert(c: Candidate, s: seq<Candidate>): (r: seq<Candidate>)
    requires SortedByDistance(s)
    ensures |r| == |s| + 1
    ensures SortedByDistance(r)
  {
    if s == [] || c.distance <= s[0].distance then [c] + s
    else
      var t := Insert(c, s[1..]);
      assert t[0] == c || t[0] == s[1];
      [s[0]] + t
  }

  /** `sort((a, b) => a.distance - b.distance)`.  Array sorting is stable, so
      the result is the unique stable ordering by distance; this insertion
      sort computes it. */
  function SortByDistance(s: seq<Candidate>): (r: seq<Candidate>)
    ensures |r| == |s|
    ensures SortedByDistance(r)
  {
    if s == [] then [] else Insert(s[0], SortByDistance(s[1..]))
  }

  /** Insertion adds exactly the inserted element. */
  lemma {:induction false} InsertPermutes(c: Candidate, s: seq<Candidate>)
    requires SortedByDistance(s)
    ensures multiset(Insert(c, s)) == multiset(s) + multiset{c}
    decreases |s|
  {
    if s != [] && c.distance > s[0].distance {
      InsertPermutes(c, s[1..]);
      assert s == [s[0]] + s[1..];
    }
  }

  /** The sort is a permutation of its input. */
  lemma {:induction false} SortPermutes(s: seq<Candidate>)
    ensures multiset(SortByDistance(s)) == multiset(s)
    decreases |s|
  {
    if s != [] {
      SortPermutes(s[1..]);
      InsertPermutes(s[0], SortByDistance(s[1..]));
      assert s == [s[0]] + s[1..];
    }
  }

  /** `...sort(...)[0]`, with `undefined` as `None`. */
  function Best(idle: seq<Candidate>, kind: string): Option<Candidate> {
    var sorted := SortByDistance(OfType(idle, kind));
    if sorted == [] then None else Some(sorted[0])
  }

  /** `[bestPolice, bestFire, bestMedical].filter(u => u !== undefined)`. */
  function Defined(xs: seq<Option<Candidate>>): seq<Candidate> {
    if xs == [] then []
    else if xs[0].Some? then [xs[0].value] + Defined(xs[1..])
    else Defined(xs[1..])
  }

  /** The suggestion list computed when an incident at `at` is focused. */
  function Suggest(units: seq<ForceUnit>, at: Coordinates, dist: Distance): seq<Candidate>
    requires IsValidCoord(ArrayValue(at))
  {
    var idle := IdleCandidates(units, at, dist);
    Defined([Best(idle, POLICE), Best(idle, FIRE), Best(idle, MEDICAL)])
  }

  // ---------------------------------------------------------------------
  // Reference definition: the first nearest eligible unit of a type
  // ---------------------------------------------------------------------

  predicate Eligible(u: ForceUnit, kind: string) {
    IsIdleWithCoords(u) && u.kind == Some(kind)
  }

  ghost predicate SomeEligible(units: seq<ForceUnit>, kind: string) {
    exists j :: 0 <= j < |units| && Eligible(units[j], kind)
  }

  /** `units[k]` is eligible for `kind`, no eligible unit of that type is
      nearer, and every eligible unit of that type before it in the roster is
      strictly farther. */
  ghost predicate IsFirstNearest(units: seq<ForceUnit>, at: Coordinates, dist: Distance, kind: string, k: int)
    requires IsValidCoord(ArrayValue(at))
  {
    && 0 <= k < |units| && Eligible(units[k], kind)
    && (forall j :: 0 <= j < |units| && Eligible(units[j], kind) ==>
          DistanceTo(at, units[k], dist) <= DistanceTo(at, units[j], dist))
    && (forall j :: 0 <= j < k && Eligible(units[j], kind) ==>
          DistanceTo(at, units[j], dist) > DistanceTo(at, units[k], dist))
  }

  /** The candidates of one type, unfolded one roster entry at a time. */
  lemma PoolStep(units: seq<ForceUnit>, at: Coordinates, dist: Distance, kind: string)
    requires IsValidCoord(ArrayValue(at)) && units != []
    ensures OfType(IdleCandidates(units, at, dist), kind) ==
      if Eligible(units[0], kind)
      then [Candidate(units[0], DistanceTo(at, units[0], dist))] + OfType(IdleCandidates(units[1..], at, dist), kind)
      else OfType(IdleCandidates(units[1..], at, dist), kind)
  {
    var f := Filter(units, IsIdleWithCoords);
    if IsIdleWithCoords(units[0]) {
      assert f == [units[0]] + Filter(units[1..], IsIdleWithCoords);
      assert f[0] == units[0] && f[1..] == Filter(units[1..], IsIdleWithCoords);
    }
  }

  lemma InsertHead(c: Candidate, s: seq<Candidate>)
    requires SortedByDistance(s)
    ensures Insert(c, s)[0] == if s == [] || c.distance <= s[0].distance then c else s[0]
  {
  }

  /** The first nearest of the roster's tail stays first nearest of the whole
      roster when the head is not an eligible unit that is at least as near. */
  lemma ShiftFirstNearest(units: seq<ForceUnit>, at: Coordinates, dist: Distance, kind: string, k: int)
    requires IsValidCoord(ArrayValue(at)) && units != []
    requires IsFirstNearest(units[1..], at, dist, kind, k)
    requires Eligible(units[0], kind) ==> DistanceTo(at, units[0], dist) > DistanceTo(at, units[k + 1], dist)
    ensures IsFirstNearest(units, at, dist, kind, k + 1)
  {
    var rest := units[1..];
    assert units[k + 1] == rest[k];
    forall j | 0 <= j < |units| && Eligible(units[j], kind)
      ensures DistanceTo(at, units[k + 1], dist) <= DistanceTo(at, units[j], dist)
    {
      if j > 0 { assert units[j] == rest[j - 1]; }
    }
    forall j | 0 <= j < k + 1 && Eligible(units[j], kind)
      ensures DistanceTo(at, units[j], dist) > DistanceTo(at, units[k + 1], dist)
    {
      if j > 0 { assert units[j] == rest[j - 1]; }
    }
  }

  /** An eligible head no farther than any eligible unit of the tail is the
      first nearest. */
  lemma HeadIsFirstNearest(units: seq<ForceUnit>, at: Coordinates, dist: Distance, kind: string)
    requires IsValidCoord(ArrayValue(at)) && units != [] && Eligible(units[0], kind)
    requires forall j :: 0 <= j < |units| - 1 && Eligible(units[1..][j], kind) ==>
      DistanceTo(at, units[0], dist) <= DistanceTo(at, units[1..][j], dist)
    ensures IsFirstNearest(units, at, dist, kind, 0)
  {
    forall j | 0 <= j < |units| && Eligible(units[j], kind)
      ensures DistanceTo(at, units[0], dist) <= DistanceTo(at, units[j], dist)
    {
      if j > 0 { assert units[j] == units[1..][j - 1]; }
    }
  }

  lemma NoneEligibleShift(units: seq<ForceUnit>, kind: string)
    requires units != [] && !Eligible(units[0], kind) && !SomeEligible(units[1..], kind)
    ensures !SomeEligible(units, kind)
  {
    forall j | 0 <= j < |units| ensures !Eligible(units[j], kind) {
      if j > 0 { assert units[j] == units[1..][j - 1]; }
    }
  }

  /** The head of the stably sorted candidates of a type is the first
      nearest eligible unit of that type in roster order; there is none
      exactly when no unit of that type is eligible. */
  lemma {:induction false} BestIsFirstNearest(units: seq<ForceUnit>, at: Coordinates, dist: Distance, kind: string)
    requires IsValidCoord(ArrayValue(at))
    ensures var best := Best(IdleCandidates(units, at, dist), kind);
      && (best.None? <==> !SomeEligible(units, kind))
      && (best.Some? ==> exists k :: IsFirstNearest(units, at, dist, kind, k) &&
                                     best.value == Candidate(units[k], DistanceTo(at, units[k], dist)))
  {
    var best := Best(IdleCandidates(units, at, dist), kind);
    if units == [] {
      assert Filter(units, IsIdleWithCoords) == [];
      assert OfType([], kind) == [];
    } else {
      var u, rest := units[0], units[1..];
      PoolStep(units, at, dist, kind);
      BestIsFirstNearest(rest, at, dist, kind);
      var restPool := OfType(IdleCandidates(rest, at, dist), kind);
      var restSorted := SortByDistance(restPool);
      var restBest := Best(IdleCandidates(rest, at, dist), kind);
      if !Eligible(u, kind) {
        assert best == restBest;
        if restBest.Some? {
          var k :| IsFirstNearest(rest, at, dist, kind, k) && restBest.value == Candidate(rest[k], DistanceTo(at, rest[k], dist));
          ShiftFirstNearest(units, at, dist, kind, k);
          assert units[k + 1] == rest[k];
        } else {
          NoneEligibleShift(units, kind);
        }
      } else {
        var c := Candidate(u, DistanceTo(at, u, dist));
        var pool := [c] + restPool;
        assert pool[0] == c && pool[1..] == restPool;
        assert SortByDistance(pool) == Insert(c, restSorted);
        InsertHead(c, restSorted);
        assert Eligible(units[0], kind);
        if restBest.None? {
          assert best == Some(c);
          HeadIsFirstNearest(units, at, dist, kind);
        } else {
          var k :| IsFirstNearest(rest, at, dist, kind, k) && restBest.value == Candidate(rest[k], DistanceTo(at, rest[k], dist));
          if c.distance <= restSorted[0].distance {
            assert best == Some(c);
            HeadIsFirstNearest(units, at, dist, kind);
          } else {
            assert best == restBest;
            ShiftFirstNearest(units, at, dist, kind, k);
            assert units[k + 1] == rest[k];
          }
        }
      }
    }
  }

  /** A type has a best unit exactly when one of its units is eligible, and
      that best unit is of the type. */
  lemma BestPresence(units: seq<ForceUnit>, at: Coordinates, dist: Distance, kind: string)
    requires IsValidCoord(ArrayValue(at))
    ensures var best := Best(IdleCandidates(units, at, dist), kind);
      && (best.None? <==> !SomeEligible(units, kind))
      && (best.Some? ==> best.value.unit.kind == Some(kind))
  {
    BestIsFirstNearest(units, at, dist, kind);
  }

  /** Position of a unit type in the suggestion order. */
  function KindRank(kind: Option<string>): int {
    if kind == Some(POLICE) then 0
    else if kind == Some(FIRE) then 1
    else if kind == Some(MEDICAL) then 2
    else 3
  }

  function OptionList(o: Option<Candidate>): seq<Candidate> {
    if o.Some? then [o.value] else []
  }

  lemma DefinedOfThree(a: Option<Candidate>, b: Option<Candidate>, c: Option<Candidate>)
    ensures Defined([a, b, c]) == OptionList(a) + OptionList(b) + OptionList(c)
  {
    assert [a, b, c][1..] == [b, c];
    assert [b, c][1..] == [c];
    assert [c][1..] == [];
    assert Defined([c]) == OptionList(c);
    assert Defined([b, c]) == OptionList(b) + OptionList(c);
  }

  ghost predicate Suggests(r: seq<Candidate>, kind: string) {
    exists i :: 0 <= i < |r| && r[i].unit.kind == Some(kind)
  }

  /** Keeping the defined entries of three options of ranks 0, 1 and 2 gives
      a list of strictly increasing rank whose entries are those options. */
  lemma DefinedInRankOrder(p: Option<Candidate>, f: Option<Candidate>, m: Option<Candidate>)
    requires p.Some? ==> p.value.unit.kind == Some(POLICE)
    requires f.Some? ==> f.value.unit.kind == Some(FIRE)
    requires m.Some? ==> m.value.unit.kind == Some(MEDICAL)
    ensures var r := Defined([p, f, m]);
      && |r| <= 3
      && (forall i, j :: 0 <= i < j < |r| ==> KindRank(r[i].unit.kind) < KindRank(r[j].unit.kind))
      && (forall i :: 0 <= i < |r| ==> Some(r[i]) == p || Some(r[i]) == f || Some(r[i]) == m)
      && (Suggests(r, POLICE) <==> p.Some?)
      && (Suggests(r, FIRE) <==> f.Some?)
      && (Suggests(r, MEDICAL) <==> m.Some?)
  {
    DefinedOfThree(p, f, m);
    var r := Defined([p, f, m]);
    if p.Some? { assert r[0] == p.value; }
    if f.Some? { assert r[|OptionList(p)|] == f.value; }
    if m.Some? { assert r[|r| - 1] == m.value; }
  }

  /** The shape of the suggestion list: at most one unit per type, in the
      order POLICE, FIRE, MEDICAL and of no other type, and a type appears
      exactly when some unit of it is eligible. */
  lemma SuggestionShape(units: seq<ForceUnit>, at: Coordinates, dist: Distance)
    requires IsValidCoord(ArrayValue(at))
    ensures var r := Suggest(units, at, dist);
      && |r| <= 3
      && (forall i, j :: 0 <= i < j < |r| ==> KindRank(r[i].unit.kind) < KindRank(r[j].unit.kind))
      && (forall i :: 0 <= i < |r| ==> KindRank(r[i].unit.kind) < 3)
      && (Suggests(r, POLICE) <==> SomeEligible(units, POLICE))
      && (Suggests(r, FIRE) <==> SomeEligible(units, FIRE))
      && (Suggests(r, MEDICAL) <==> SomeEligible(units, MEDICAL))
  {
    var idle := IdleCandidates(units, at, dist);
    var p, f, m := Best(idle, POLICE), Best(idle, FIRE), Best(idle, MEDICAL);
    BestPresence(units, at, dist, POLICE);
    BestPresence(units, at, dist, FIRE);
    BestPresence(units, at, dist, MEDICAL);
    DefinedInRankOrder(p, f, m);
  }

  /** Every suggested unit is an idle, well-placed roster unit, no farther
      than any eligible unit of its type, and the first such in roster order. */
  lemma SuggestedAreFirstNearest(units: seq<ForceUnit>, at: Coordinates, dist: Distance)
    requires IsValidCoord(ArrayValue(at))
    ensures var r := Suggest(units, at, dist);
      forall i :: 0 <= i < |r| ==>
        && r[i].unit in units && r[i].unit.status == IDLE
        && IsValidCoord(ArrayValue(r[i].unit.coordinates))
        && r[i].unit.kind.Some?
        && (exists k :: IsFirstNearest(units, at, dist, r[i].unit.kind.value, k)
                        && r[i] == Candidate(units[k], DistanceTo(at, units[k], dist)))
  {
    var idle := IdleCandidates(units, at, dist);
    var p, f, m := Best(idle, POLICE), Best(idle, FIRE), Best(idle, MEDICAL);
    BestIsFirstNearest(units, at, dist, POLICE);
    BestIsFirstNearest(units, at, dist, FIRE);
    BestIsFirstNearest(units, at, dist, MEDICAL);
    DefinedInRankOrder(p, f, m);
    var r := Suggest(units, at, dist);
    assert r == Defined([p, f, m]);
    forall i | 0 <= i < |r|
      ensures && r[i].unit in units && r[i].unit.status == IDLE
              && IsValidCoord(ArrayValue(r[i].unit.coordinates))
              && r[i].unit.kind.Some?
              && (exists k :: IsFirstNearest(units, at, dist, r[i].unit.kind.value, k)
                              && r[i] == Candidate(units[k], DistanceTo(at, units[k], dist)))
    {
      var kind := if Some(r[i]) == p then POLICE else if Some(r[i]) == f then FIRE else MEDICAL;
      assert Best(idle, kind) == Some(r[i]);
      var k :| IsFirstNearest(units, at, dist, kind, k) && r[i] == Candidate(units[k], DistanceTo(at, units[k], dist));
      assert r[i].unit.kind.value == kind;
    }
  }
}
