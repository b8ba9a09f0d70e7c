/**
 The circle method: a rotating list pairs its ends inwards each round, over two legs with
 home and away exchanged. For any even number of distinct teams the result is a double
 round robin.
 */
module RoundRobin {
  import opened Sorting
  import opened ShardLabels

  datatype Fixture = Fixture(home: string, away: string, round: nat)

  // ----- the rotation

  /** The first stays, the last moves to second place. */
  function Rotate<T>(r: seq<T>): (s: seq<T>)
    requires |r| >= 2
    ensures |s| == |r|
  {
    [r[0], r[|r| - 1]] + r[1..|r| - 1]
  }

  function Rotated<T>(teams: seq<T>, k: nat): (r: seq<T>)
    requires |teams| >= 2
    ensures |r| == |teams|
  {
    if k == 0 then teams else Rotate(Rotated(teams, k - 1))
  }

  /** x modulo N, between 0 and N - 1. */
  function Wrap(x: int, N: nat): (a: int)
    requires N >= 1
    ensures 0 <= a < N
  {
    x % N
  }

  lemma WrapOf(x: int, N: nat, a: int, q: int)
    requires 0 <= a < N && x == a + N * q
    ensures Wrap(x, N) == a
  {
    var d := x / N - q;
    assert x == N * (x / N) + x % N;
    assert N * d == a - x % N;
    MultipleIsLarge(N, d);
  }

  lemma MultipleIsLarge(N: nat, d: int)
    ensures d >= 1 ==> N * d >= N
    ensures d <= -1 ==> N * d + N <= 0
  {
  }

  lemma WrapSmall(x: int, N: nat)
    requires N >= 1 && 0 <= x + N && x < 2 * N
    ensures Wrap(x, N) == if x < 0 then x + N else if x < N then x else x - N
  {
    WrapOf(x, N, if x < 0 then x + N else if x < N then x else x - N, if x < 0 then -1 else if x < N then 0 else 1);
  }

  lemma WrapShift(x: int, y: int, N: nat)
    requires N >= 1
    ensures Wrap(x + y, N) == Wrap(Wrap(x, N) + y, N)
  {
    var a := Wrap(Wrap(x, N) + y, N);
    assert x == N * (x / N) + Wrap(x, N);
    var z := Wrap(x, N) + y;
    assert z == N * (z / N) + a;
    assert x + y == a + N * (x / N + z / N);
    WrapOf(x + y, N, a, x / N + z / N);
  }

  lemma WrapPeriod(x: int, N: nat)
    requires N >= 1
    ensures Wrap(x + N, N) == Wrap(x, N)
  {
    WrapShift(x, N, N);
    WrapSmall(Wrap(x, N) + N, N);
  }

  /** Where team s stands after k rotations of n places. */
  function Place(n: nat, s: nat, k: nat): (p: nat)
    requires n >= 2 && s < n
    ensures p < n
  {
    if s == 0 then 0 else 1 + Wrap(s - 1 + k, n - 1)
  }

  lemma PlaceStep(n: nat, s: nat, k: nat)
    requires n >= 2 && s < n
    ensures Place(n, s, k + 1) == if s == 0 then 0 else if Place(n, s, k) == n - 1 then 1 else Place(n, s, k) + 1
  {
    if s > 0 {
      WrapShift(s - 1 + k, 1, n - 1);
      WrapSmall(Wrap(s - 1 + k, n - 1) + 1, n - 1);
    }
  }

  /** The rotation puts team s at its place. */
  lemma {:induction false} RotatedPlace<T>(teams: seq<T>, s: nat, k: nat)
    requires |teams| >= 2 && s < |teams|
    ensures Rotated(teams, k)[Place(|teams|, s, k)] == teams[s]
  {
    var n := |teams|;
    if k == 0 {
      if s > 0 {
        WrapSmall(s - 1, n - 1);
      }
    } else {
      RotatedPlace(teams, s, k - 1);
      PlaceStep(n, s, k - 1);
      RotateMoves(Rotated(teams, k - 1), Place(n, s, k - 1));
    }
  }

  lemma RotateMoves<T>(r: seq<T>, p: nat)
    requires |r| >= 2 && p < |r|
    ensures Rotate(r)[if p == 0 then 0 else if p == |r| - 1 then 1 else p + 1] == r[p]
  {
  }

  /** Different teams stand at different places. */
  lemma PlacesDiffer(n: nat, s: nat, t: nat, k: nat)
    requires n >= 2 && s < n && t < n && s != t
    ensures Place(n, s, k) != Place(n, t, k)
    decreases k
  {
    if k == 0 {
      if s > 0 {
        WrapSmall(s - 1, n - 1);
      }
      if t > 0 {
        WrapSmall(t - 1, n - 1);
      }
    } else {
      PlaceStep(n, s, k - 1);
      PlaceStep(n, t, k - 1);
      PlacesDiffer(n, s, t, k - 1);
    }
  }

  /** The team that stands at place p. */
  lemma {:induction false} TeamAt(n: nat, p: nat, k: nat) returns (s: nat)
    requires n >= 2 && p < n
    ensures s < n && Place(n, s, k) == p
    decreases k
  {
    if k == 0 {
      s := p;
      if s > 0 {
        WrapSmall(s - 1, n - 1);
      }
    } else {
      s := TeamAt(n, if p == 0 then 0 else if p == 1 then n - 1 else p - 1, k - 1);
      PlaceStep(n, s, k - 1);
    }
  }

  lemma PlacePeriod(n: nat, s: nat, k: nat)
    requires n >= 2 && s < n
    ensures Place(n, s, k + (n - 1)) == Place(n, s, k)
  {
    if s > 0 {
      WrapPeriod(s - 1 + k, n - 1);
    }
  }

  lemma PlaceAtStart(n: nat, s: nat)
    requires n >= 2 && s < n
    ensures Place(n, s, 0) == s && Place(n, s, n - 1) == s
  {
    if s > 0 {
      WrapSmall(s - 1, n - 1);
    }
    PlacePeriod(n, s, 0);
  }

  lemma ReturnsToPlace<T>(teams: seq<T>, p: nat)
    requires |teams| >= 2 && p < |teams|
    ensures Rotated(teams, |teams| - 1)[p] == teams[p]
  {
    PlaceAtStart(|teams|, p);
    RotatedPlace(teams, p, |teams| - 1);
  }

  lemma EqualAtEveryPlace<T>(a: seq<T>, b: seq<T>)
    requires |a| == |b| && forall p: nat :: p < |a| ==> a[p] == b[p]
    ensures a == b
  {
  }

  /** After n - 1 rotations the list is back where it started. */
  lemma {:induction false} RotationReturns<T>(teams: seq<T>)
    requires |teams| >= 2
    ensures Rotated(teams, |teams| - 1) == teams
  {
    var back := Rotated(teams, |teams| - 1);
    forall p: nat | p < |teams| ensures back[p] == teams[p] {
      ReturnsToPlace(teams, p);
    }
    EqualAtEveryPlace(back, teams);
  }

  // ----- who meets whom: two teams meet in round k when their places add to n - 1

  ghost predicate Meet(n: nat, s: nat, t: nat, k: nat)
    requires n >= 2 && s < n && t < n
  {
    Place(n, s, k) + Place(n, t, k) == n - 1
  }

  /** Half of c modulo an odd N. */
  lemma Halved(c: nat, N: nat) returns (k: nat)
    requires N % 2 == 1 && c < N
    ensures k < N && (2 * k == c || 2 * k == c + N)
  {
    k := if c % 2 == 0 then c / 2 else (c + N) / 2;
  }

  /** The round in which s and t meet in a leg. */
  lemma MeetingRound(n: nat, s: nat, t: nat) returns (k: nat)
    requires n >= 2 && n % 2 == 0 && s < n && t < n && s != t
    ensures k < n - 1 && Meet(n, s, t, k)
  {
    var N := n - 1;
    if s == 0 || t == 0 {
      k := N - (s + t);
      MeetFixedTeam(n, s + t);
    } else {
      var c := Wrap(-(s + t), N);
      k := Halved(c, N);
      MeetBySum(n, s, t, k, c);
    }
  }

  /** The team that stays first meets t when t stands last. */
  lemma MeetFixedTeam(n: nat, t: nat)
    requires n >= 2 && 0 < t < n
    ensures Meet(n, 0, t, n - 1 - t) && Meet(n, t, 0, n - 1 - t)
  {
    WrapSmall(t - 1 + (n - 1 - t), n - 1);
  }

  lemma MeetBySum(n: nat, s: nat, t: nat, k: nat, c: nat)
    requires n >= 2 && 0 < s < n && 0 < t < n && s != t && k < n - 1
    requires c == Wrap(-(s + t), n - 1) && (2 * k == c || 2 * k == c + (n - 1))
    ensures Meet(n, s, t, k)
  {
    var N := n - 1;
    WrapSmall(s - 1 + k, N);
    WrapSmall(t - 1 + k, N);
    WrapSmall(-(s + t) + N, N);
    WrapPeriod(-(s + t), N);
  }

  /** In round k the places of s and t, counted without wrapping, exceed the wrapped ones by full turns. */
  lemma MeetMeans(n: nat, s: nat, t: nat, k: nat)
    requires n >= 2 && s < n && t < n && s != t && k < n - 1 && Meet(n, s, t, k)
    ensures s == 0 || t == 0 ==> s + t + k == n - 1
    ensures s > 0 && t > 0 ==>
      s + t + 2 * k == n - 1 || s + t + 2 * k == 2 * (n - 1) || s + t + 2 * k == 3 * (n - 1)
  {
    if s > 0 {
      WrapSmall(s - 1 + k, n - 1);
    }
    if t > 0 {
      WrapSmall(t - 1 + k, n - 1);
    }
  }

  /** They meet in no other round of the leg: n - 1 is odd. */
  lemma MeetingIsUnique(n: nat, s: nat, t: nat, k: nat, k': nat)
    requires n >= 2 && n % 2 == 0 && s < n && t < n && s != t
    requires k < n - 1 && k' < n - 1 && Meet(n, s, t, k) && Meet(n, s, t, k')
    ensures k == k'
  {
    MeetMeans(n, s, t, k);
    MeetMeans(n, s, t, k');
    NoTurnApart(k - k', n / 2);
  }

  /** Twice a difference within one turn of an odd length is a number of turns only at zero. */
  lemma NoTurnApart(d: int, h: int)
    requires -(2 * h - 1) < d < 2 * h - 1
    ensures 2 * d == 2 * h - 1 || 2 * d == 1 - 2 * h || 2 * d == 4 * h - 2 || 2 * d == 2 - 4 * h ==> d == 0
  {
  }

  // ----- the fixtures of a round

  /** The pair at index i of round r, counted over both legs; leg two exchanges home and away. */
  function FixtureAt(teams: seq<string>, r: nat, i: nat): Fixture
    requires |teams| >= 2 && i < |teams|
  {
    var rotation := Rotated(teams, r);
    var left, right := rotation[i], rotation[|teams| - 1 - i];
    if r < |teams| - 1 then Fixture(left, right, r + 1) else Fixture(right, left, r + 1)
  }

  function Round(teams: seq<string>, r: nat): (s: seq<Fixture>)
    requires |teams| >= 2
    ensures |s| == |teams| / 2
    ensures forall i: nat :: i < |s| ==> s[i] == FixtureAt(teams, r, i)
  {
    seq(|teams| / 2, i requires 0 <= i < |teams| / 2 => FixtureAt(teams, r, i))
  }

  function Rounds(teams: seq<string>, count: nat): (s: seq<seq<Fixture>>)
    requires |teams| >= 2
    ensures |s| == count && forall r: nat :: r < count ==> s[r] == Round(teams, r)
  {
    seq(count, r requires 0 <= r < count => Round(teams, r))
  }

  /** The whole double round robin. */
  function Season(teams: seq<string>): seq<Fixture>
    requires |teams| >= 2
  {
    Flatten(Rounds(teams, 2 * (|teams| - 1)))
  }

  /** The inner loop: pair the ends of the rotation inwards. */
  method PairRound(rotation: seq<string>, leg: nat, number: nat) returns (result: seq<Fixture>)
    requires |rotation| >= 2
    ensures |result| == |rotation| / 2
    ensures forall i: nat :: i < |result| ==>
      var left, right := rotation[i], rotation[|rotation| - 1 - i];
      result[i] == if leg == 0 then Fixture(left, right, number) else Fixture(right, left, number)
  {
    result := [];
    for index := 0 to |rotation| / 2
      invariant |result| == index
      invariant forall i: nat :: i < index ==>
        var left, right := rotation[i], rotation[|rotation| - 1 - i];
        result[i] == if leg == 0 then Fixture(left, right, number) else Fixture(right, left, number)
    {
      var left, right := rotation[index], rotation[|rotation| - 1 - index];
      var (home, away) := if leg == 0 then (left, right) else (right, left);
      result := result + [Fixture(home, away, number)];
    }
  }

  /** The loops: two legs of rounds, the rotation carried on from one to the next. */
  method Fixtures(teams: seq<string>) returns (result: seq<Fixture>)
    requires |teams| >= 2
    ensures result == Season(teams)
  {
    var rotation := teams;
    result := [];
    for leg := 0 to 2
      invariant rotation == Rotated(teams, LegStart(|teams|, leg))
      invariant result == Flatten(Rounds(teams, LegStart(|teams|, leg)))
    {
      result, rotation := PlayLeg(teams, leg, rotation, result);
    }
  }

  /** The rounds of one leg. */
  method PlayLeg(ghost teams: seq<string>, leg: nat, start: seq<string>, before: seq<Fixture>)
    returns (result: seq<Fixture>, rotation: seq<string>)
    requires |teams| >= 2 && leg < 2
    requires start == Rotated(teams, LegStart(|teams|, leg))
    requires before == Flatten(Rounds(teams, LegStart(|teams|, leg)))
    ensures rotation == Rotated(teams, LegStart(|teams|, leg + 1))
    ensures result == Flatten(Rounds(teams, LegStart(|teams|, leg + 1)))
  {
    var n, first := |start|, LegStart(|start|, leg);
    result, rotation := before, start;
    for round := 0 to n - 1
      invariant Played(teams, first + round, result, rotation)
    {
      var pairs := PairRound(rotation, leg, first + round + 1);
      PlayedOneMore(teams, leg, first + round, result, rotation, pairs);
      result, rotation := result + pairs, Rotate(rotation);
    }
  }

  /** The state of the loops after this many rounds. */
  ghost predicate Played(teams: seq<string>, rounds: nat, result: seq<Fixture>, rotation: seq<string>) {
    && |teams| == |rotation| >= 2
    && rotation == Rotated(teams, rounds)
    && result == Flatten(Rounds(teams, rounds))
  }

  lemma PlayedOneMore(teams: seq<string>, leg: nat, r: nat, result: seq<Fixture>, rotation: seq<string>,
                      pairs: seq<Fixture>)
    requires Played(teams, r, result, rotation)
    requires |pairs| == |teams| / 2
    requires leg == 0 <==> r < |teams| - 1
    requires forall i: nat :: i < |pairs| ==>
      var left, right := rotation[i], rotation[|rotation| - 1 - i];
      pairs[i] == if leg == 0 then Fixture(left, right, r + 1) else Fixture(right, left, r + 1)
    ensures Played(teams, r + 1, result + pairs, Rotate(rotation))
  {
    PairsAreRound(teams, leg, r, pairs);
    RoundAppended(teams, r);
  }

  lemma PairsAreRound(teams: seq<string>, leg: nat, r: nat, pairs: seq<Fixture>)
    requires |teams| >= 2 && |pairs| == |teams| / 2
    requires leg == 0 <==> r < |teams| - 1
    requires forall i: nat :: i < |pairs| ==>
      var left, right := Rotated(teams, r)[i], Rotated(teams, r)[|teams| - 1 - i];
      pairs[i] == if leg == 0 then Fixture(left, right, r + 1) else Fixture(right, left, r + 1)
    ensures pairs == Round(teams, r)
  {
    assert forall i: nat :: i < |pairs| ==> pairs[i] == FixtureAt(teams, r, i);
  }

  /** How many rounds come before a leg. */
  function LegStart(n: nat, leg: nat): nat
    requires n >= 1
  {
    if leg == 0 then 0 else if leg == 1 then n - 1 else 2 * (n - 1)
  }

  lemma RoundAppended(teams: seq<string>, r: nat)
    requires |teams| >= 2
    ensures Flatten(Rounds(teams, r + 1)) == Flatten(Rounds(teams, r)) + Round(teams, r)
  {
    assert Rounds(teams, r + 1)[..r] == Rounds(teams, r);
  }

  // ----- counting

  function Count<T>(p: T -> bool, s: seq<T>): nat {
    if s == [] then 0 else Count(p, s[..|s| - 1]) + if p(s[|s| - 1]) then 1 else 0
  }

  lemma {:induction false} CountNone<T>(p: T -> bool, s: seq<T>)
    requires forall i :: 0 <= i < |s| ==> !p(s[i])
    ensures Count(p, s) == 0
  {
    if s != [] {
      CountNone(p, s[..|s| - 1]);
    }
  }

  lemma {:induction false} CountOne<T>(p: T -> bool, s: seq<T>, k: nat)
    requires k < |s| && p(s[k])
    requires forall i :: 0 <= i < |s| && i != k ==> !p(s[i])
    ensures Count(p, s) == 1
  {
    var n := |s| - 1;
    if k == n {
      CountNone(p, s[..n]);
    } else {
      CountOne(p, s[..n], k);
    }
  }

  lemma {:induction false} CountAppend<T>(p: T -> bool, a: seq<T>, b: seq<T>)
    ensures Count(p, a + b) == Count(p, a) + Count(p, b)
  {
    if b == [] {
      assert a + b == a;
    } else {
      var n := |b| - 1;
      assert (a + b)[..|a| + n] == a + b[..n];
      CountAppend(p, a, b[..n]);
    }
  }

  lemma {:induction false} CountFlattenNone<T>(p: T -> bool, lists: seq<seq<T>>)
    requires forall r :: 0 <= r < |lists| ==> Count(p, lists[r]) == 0
    ensures Count(p, Flatten(lists)) == 0
  {
    if lists != [] {
      var n := |lists| - 1;
      CountFlattenNone(p, lists[..n]);
      CountAppend(p, Flatten(lists[..n]), lists[n]);
    }
  }

  lemma {:induction false} CountFlattenOne<T>(p: T -> bool, lists: seq<seq<T>>, k: nat)
    requires k < |lists| && Count(p, lists[k]) == 1
    requires forall r :: 0 <= r < |lists| && r != k ==> Count(p, lists[r]) == 0
    ensures Count(p, Flatten(lists)) == 1
  {
    var n := |lists| - 1;
    CountAppend(p, Flatten(lists[..n]), lists[n]);
    if k == n {
      CountFlattenNone(p, lists[..n]);
    } else {
      CountFlattenOne(p, lists[..n], k);
    }
  }

  // ----- the theorems

  ghost predicate League(teams: seq<string>) {
    |teams| >= 2 && |teams| % 2 == 0 && Distinct(teams)
  }

  lemma NameAt(teams: seq<string>, s: nat, r: nat, p: nat)
    requires League(teams) && s < |teams| && p < |teams|
    ensures Rotated(teams, r)[p] == teams[s] <==> p == Place(|teams|, s, r)
  {
    RotatedPlace(teams, s, r);
    var t := TeamAt(|teams|, p, r);
    RotatedPlace(teams, t, r);
    if s != t {
      PlacesDiffer(|teams|, s, t, r);
    }
  }

  function PlaysIn(team: string, round: nat): Fixture -> bool {
    (f: Fixture) => f.round == round && (f.home == team || f.away == team)
  }

  function Pairing(home: string, away: string): Fixture -> bool {
    (f: Fixture) => f.home == home && f.away == away
  }

  /** The index at which a team at place p is paired. */
  function PairIndex(n: nat, p: nat): nat
    requires p < n
  {
    if p < n / 2 then p else n - 1 - p
  }

  lemma TeamInRound(teams: seq<string>, s: nat, r: nat, i: nat)
    requires League(teams) && s < |teams| && i < |teams| / 2
    ensures var f := FixtureAt(teams, r, i);
      (f.home == teams[s] || f.away == teams[s]) <==> i == PairIndex(|teams|, Place(|teams|, s, r))
  {
    NameAt(teams, s, r, i);
    NameAt(teams, s, r, |teams| - 1 - i);
  }

  /** A property that one place of one round has, and no other place, counts once. */
  lemma CountsOnce(teams: seq<string>, p: Fixture -> bool, r0: nat, i0: nat)
    requires |teams| >= 2 && r0 < 2 * (|teams| - 1) && i0 < |teams| / 2
    requires forall r: nat, i: nat :: r < 2 * (|teams| - 1) && i < |teams| / 2 ==>
      (p(FixtureAt(teams, r, i)) <==> r == r0 && i == i0)
    ensures Count(p, Season(teams)) == 1
  {
    var lists := Rounds(teams, 2 * (|teams| - 1));
    forall r: nat | r < |lists| && r != r0 ensures Count(p, lists[r]) == 0 {
      CountNone(p, lists[r]);
    }
    CountOne(p, lists[r0], i0);
    CountFlattenOne(p, lists, r0);
  }

  /** Every team plays exactly once in every round. */
  lemma OncePerRound(teams: seq<string>, s: nat, r: nat)
    requires League(teams) && s < |teams| && r < 2 * (|teams| - 1)
    ensures Count(PlaysIn(teams[s], r + 1), Season(teams)) == 1
  {
    var i0 := PairIndex(|teams|, Place(|teams|, s, r));
    forall q: nat, i: nat | q < 2 * (|teams| - 1) && i < |teams| / 2
      ensures PlaysIn(teams[s], r + 1)(FixtureAt(teams, q, i)) <==> q == r && i == i0
    {
      TeamInRound(teams, s, q, i);
    }
    CountsOnce(teams, PlaysIn(teams[s], r + 1), r, i0);
  }

  /** In round r the pair at index i is s against t, in that order of places. */
  lemma PairInRound(teams: seq<string>, s: nat, t: nat, r: nat, i: nat)
    requires League(teams) && s < |teams| && t < |teams| && i < |teams| / 2
    ensures (Rotated(teams, r)[i] == teams[s] && Rotated(teams, r)[|teams| - 1 - i] == teams[t])
      <==> i == Place(|teams|, s, r) && Meet(|teams|, s, t, r)
  {
    NameAt(teams, s, r, i);
    NameAt(teams, t, r, |teams| - 1 - i);
  }

  lemma MeetPeriod(n: nat, s: nat, t: nat, r: nat)
    requires n >= 2 && s < n && t < n
    ensures Meet(n, s, t, r + (n - 1)) <==> Meet(n, s, t, r)
  {
    PlacePeriod(n, s, r);
    PlacePeriod(n, t, r);
  }

  /** In which leg s is at home to t, given the round of a leg in which they meet. */
  function HomeRound(n: nat, s: nat, k: nat): nat
    requires n >= 2 && s < n
  {
    if Place(n, s, k) < n / 2 then k else k + (n - 1)
  }

  /** The place of the home side when s is at home: the left end in leg one, the right in leg two. */
  lemma PairingAt(teams: seq<string>, s: nat, t: nat, k: nat, r: nat, i: nat)
    requires League(teams) && s < |teams| && t < |teams| && s != t
    requires k < |teams| - 1 && Meet(|teams|, s, t, k)
    requires r < 2 * (|teams| - 1) && i < |teams| / 2
    ensures Pairing(teams[s], teams[t])(FixtureAt(teams, r, i))
      <==> r == HomeRound(|teams|, s, k) && i == PairIndex(|teams|, Place(|teams|, s, k))
  {
    var n := |teams|;
    var q := if r < n - 1 then r else r - (n - 1);
    MeetsOnlyIn(n, s, t, k, q);
    if r < n - 1 {
      PairInRound(teams, s, t, r, i);
    } else {
      PairInRound(teams, t, s, r, i);
      MeetPeriod(n, s, t, q);
      PlacePeriod(n, t, q);
    }
  }

  lemma MeetsOnlyIn(n: nat, s: nat, t: nat, k: nat, r: nat)
    requires n >= 2 && n % 2 == 0 && s < n && t < n && s != t
    requires k < n - 1 && r < n - 1 && Meet(n, s, t, k)
    ensures Meet(n, s, t, r) <==> r == k
  {
    if Meet(n, s, t, r) {
      MeetingIsUnique(n, s, t, k, r);
    }
  }

  /** Each ordered pair of different teams is home and away exactly once over both legs. */
  lemma OrderedPairOnce(teams: seq<string>, s: nat, t: nat)
    requires League(teams) && s < |teams| && t < |teams| && s != t
    ensures Count(Pairing(teams[s], teams[t]), Season(teams)) == 1
  {
    var k := MeetingRound(|teams|, s, t);
    var r0, i0 := HomeRound(|teams|, s, k), PairIndex(|teams|, Place(|teams|, s, k));
    forall r: nat, i: nat | r < 2 * (|teams| - 1) && i < |teams| / 2
      ensures Pairing(teams[s], teams[t])(FixtureAt(teams, r, i)) <==> r == r0 && i == i0
    {
      PairingAt(teams, s, t, k, r, i);
    }
    CountsOnce(teams, Pairing(teams[s], teams[t]), r0, i0);
  }

  /** A match of these two, whoever is at home, in this leg of a season of n teams. */
  function PairedInLeg(a: string, b: string, n: nat, leg: nat): Fixture -> bool
    requires n >= 1
  {
    (f: Fixture) =>
      LegStart(n, leg) + 1 <= f.round <= LegStart(n, leg) + n - 1
      && (Pairing(a, b)(f) || Pairing(b, a)(f))
  }

  lemma MeetingAt(teams: seq<string>, s: nat, t: nat, k: nat, r: nat, i: nat, leg: nat)
    requires League(teams) && s < |teams| && t < |teams| && s != t
    requires k < |teams| - 1 && Meet(|teams|, s, t, k) && leg < 2
    requires r < 2 * (|teams| - 1) && i < |teams| / 2
    ensures PairedInLeg(teams[s], teams[t], |teams|, leg)(FixtureAt(teams, r, i))
      <==> r == k + LegStart(|teams|, leg) && i == PairIndex(|teams|, Place(|teams|, s, k))
  {
    assert Meet(|teams|, t, s, k);
    PairingAt(teams, s, t, k, r, i);
    PairingAt(teams, t, s, k, r, i);
  }

  /** Each pair of different teams meets exactly once in each leg. */
  lemma MeetOncePerLeg(teams: seq<string>, s: nat, t: nat, leg: nat)
    requires League(teams) && s < |teams| && t < |teams| && s != t && leg < 2
    ensures Count(PairedInLeg(teams[s], teams[t], |teams|, leg), Season(teams)) == 1
  {
    var k := MeetingRound(|teams|, s, t);
    var r0, i0 := k + LegStart(|teams|, leg), PairIndex(|teams|, Place(|teams|, s, k));
    forall r: nat, i: nat | r < 2 * (|teams| - 1) && i < |teams| / 2
      ensures PairedInLeg(teams[s], teams[t], |teams|, leg)(FixtureAt(teams, r, i)) <==> r == r0 && i == i0
    {
      MeetingAt(teams, s, t, k, r, i, leg);
    }
    CountsOnce(teams, PairedInLeg(teams[s], teams[t], |teams|, leg), r0, i0);
  }

  lemma {:induction false} SeasonLength(teams: seq<string>, count: nat)
    requires |teams| >= 2
    ensures |Flatten(Rounds(teams, count))| == count * (|teams| / 2)
  {
    if count > 0 {
      SeasonLength(teams, count - 1);
      RoundAppended(teams, count - 1);
      assert count * (|teams| / 2) == (count - 1) * (|teams| / 2) + |teams| / 2;
    }
  }

  // ----- the twenty teams of the installed check

  function TeamNames(n: nat): (r: seq<string>)
    ensures |r| == n
  {
    seq(n, i requires 0 <= i < n => TeamName(i + 1))
  }

  function TeamName(number: nat): string {
    "Team " + Padded(number, 2)
  }

  lemma SamePrefix(prefix: string, a: string, b: string)
    requires a != b
    ensures prefix + a != prefix + b
  {
    assert (prefix + a)[|prefix|..] == a && (prefix + b)[|prefix|..] == b;
  }

  lemma NamesDiffer(i: nat, j: nat)
    requires i != j
    ensures TeamName(i) != TeamName(j)
  {
    ParsePadded(i, 2);
    ParsePadded(j, 2);
    SamePrefix("Team ", Padded(i, 2), Padded(j, 2));
  }

  /** Numbered names are distinct. */
  lemma TeamNamesDistinct(n: nat)
    ensures Distinct(TeamNames(n))
  {
    forall i: nat, j: nat | i < j < n ensures TeamNames(n)[i] != TeamNames(n)[j] {
      NamesDiffer(i + 1, j + 1);
    }
  }

  /** So the theorems hold of any even number of them; twenty play 380 matches. */
  lemma TeamNamesAreLeague(n: nat)
    requires n >= 2 && n % 2 == 0
    ensures League(TeamNames(n)) && |Season(TeamNames(n))| == n * (n - 1)
  {
    TeamNamesDistinct(n);
    SeasonLength(TeamNames(n), 2 * (n - 1));
    assert 2 * (n - 1) * (n / 2) == n * (n - 1) by {
      assert n == 2 * (n / 2);
    }
  }
}
