/**
 The synthetic season written over the fixtures: scores of one or two goals and three
 score shapes, handed out by position. The configured totals come out exactly when they
 can.
 */
module SeasonTotals {
  import opened RoundRobin

  /** How a score is written: with a half-time score, full time only, or a bare list. */
  datatype Shape = HalfAndFull | FullOnly | Bare

  datatype Config = Config(homeGoals: int, awayGoals: int, expectedMatches: int, objectHtFt: int, objectFt: int)

  datatype Match = Match(home: string, away: string, round: nat, homeScore: nat, awayScore: nat, shape: Shape)

  /** Two goals for the first matches, as many as the goals exceed the matches; then one. */
  function ScoreAt(goals: int, expectedMatches: int, index: nat): nat {
    if index < goals - expectedMatches then 2 else 1
  }

  function ShapeAt(c: Config, index: nat): Shape {
    if index < c.objectHtFt then HalfAndFull
    else if index < c.objectHtFt + c.objectFt then FullOnly
    else Bare
  }

  function MatchAt(c: Config, f: Fixture, index: nat): Match {
    Match(f.home, f.away, f.round,
          ScoreAt(c.homeGoals, c.expectedMatches, index),
          ScoreAt(c.awayGoals, c.expectedMatches, index),
          ShapeAt(c, index))
  }

  /** matches are the fixtures in order, each with the score of its position. */
  ghost predicate IsSeason(c: Config, fixtures: seq<Fixture>, matches: seq<Match>) {
    && |matches| == |fixtures|
    && forall i: nat :: i < |matches| ==> matches[i] == MatchAt(c, fixtures[i], i)
  }

  method SeasonBody(c: Config, teams: seq<string>) returns (matches: seq<Match>)
    requires |teams| >= 2
    ensures IsSeason(c, Season(teams), matches)
  {
    var fixtures := Fixtures(teams);
    matches := [];
    for index := 0 to |fixtures|
      invariant |matches| == index
      invariant forall i: nat :: i < index ==> matches[i] == MatchAt(c, fixtures[i], i)
    {
      var f := fixtures[index];
      var homeScore := if index < c.homeGoals - c.expectedMatches then 2 else 1;
      var awayScore := if index < c.awayGoals - c.expectedMatches then 2 else 1;
      var shape := Bare;
      if index < c.objectHtFt {
        shape := HalfAndFull;
      } else if index < c.objectHtFt + c.objectFt {
        shape := FullOnly;
      }
      matches := matches + [Match(f.home, f.away, f.round, homeScore, awayScore, shape)];
    }
  }

  // ----- totals

  function HomeGoals(matches: seq<Match>): nat {
    if matches == [] then 0 else HomeGoals(matches[..|matches| - 1]) + matches[|matches| - 1].homeScore
  }

  function AwayGoals(matches: seq<Match>): nat {
    if matches == [] then 0 else AwayGoals(matches[..|matches| - 1]) + matches[|matches| - 1].awayScore
  }

  function Clamp(x: int, top: nat): nat {
    if x < 0 then 0 else if x > top then top else x
  }

  function HasShape(shape: Shape): Match -> bool {
    (m: Match) => m.shape == shape
  }

  lemma {:induction false} PrefixTotals(c: Config, fixtures: seq<Fixture>, matches: seq<Match>)
    requires IsSeason(c, fixtures, matches)
    ensures var n := |matches|;
      && HomeGoals(matches) == n + Clamp(c.homeGoals - c.expectedMatches, n)
      && AwayGoals(matches) == n + Clamp(c.awayGoals - c.expectedMatches, n)
  {
    if matches != [] {
      var n := |matches| - 1;
      PrefixTotals(c, fixtures[..n], matches[..n]);
    }
  }

  lemma {:induction false} PrefixShapes(c: Config, fixtures: seq<Fixture>, matches: seq<Match>)
    requires IsSeason(c, fixtures, matches)
    ensures var n := |matches|;
      && Count(HasShape(HalfAndFull), matches) == Clamp(c.objectHtFt, n)
      && Count(HasShape(HalfAndFull), matches) + Count(HasShape(FullOnly), matches)
        == (if c.objectFt < 0 then Clamp(c.objectHtFt, n) else Clamp(c.objectHtFt + c.objectFt, n))
      && Count(HasShape(HalfAndFull), matches) + Count(HasShape(FullOnly), matches)
        + Count(HasShape(Bare), matches) == n
  {
    if matches != [] {
      var n := |matches| - 1;
      PrefixShapes(c, fixtures[..n], matches[..n]);
      assert matches[n] == MatchAt(c, fixtures[n], n);
    }
  }

  /**
   With as many fixtures as expected matches, the season scores the configured goals
   exactly when they lie between one and two per match.
   */
  lemma GoalsComeOut(c: Config, fixtures: seq<Fixture>, matches: seq<Match>)
    requires IsSeason(c, fixtures, matches) && |fixtures| == c.expectedMatches
    ensures HomeGoals(matches) == c.homeGoals <==> c.expectedMatches <= c.homeGoals <= 2 * c.expectedMatches
    ensures AwayGoals(matches) == c.awayGoals <==> c.expectedMatches <= c.awayGoals <= 2 * c.expectedMatches
  {
    PrefixTotals(c, fixtures, matches);
  }

  /** The shapes come out as configured exactly when their counts fit. */
  lemma ShapesComeOut(c: Config, fixtures: seq<Fixture>, matches: seq<Match>)
    requires IsSeason(c, fixtures, matches)
    ensures (Count(HasShape(HalfAndFull), matches) == c.objectHtFt && Count(HasShape(FullOnly), matches) == c.objectFt)
      <==> c.objectHtFt >= 0 && c.objectFt >= 0 && c.objectHtFt + c.objectFt <= |fixtures|
  {
    PrefixShapes(c, fixtures, matches);
  }

  /** A match has the teams and the round of its fixture; the first matches of the season have one goal
      more at home, and away, than the others; and the shapes come in blocks. */
  lemma MatchMeans(c: Config, fixtures: seq<Fixture>, matches: seq<Match>, i: nat)
    requires IsSeason(c, fixtures, matches) && i < |matches|
    ensures matches[i].home == fixtures[i].home && matches[i].away == fixtures[i].away
    ensures matches[i].round == fixtures[i].round
    ensures matches[i].homeScore == if i < c.homeGoals - c.expectedMatches then 2 else 1
    ensures matches[i].awayScore == if i < c.awayGoals - c.expectedMatches then 2 else 1
    ensures matches[i].shape == HalfAndFull <==> i < c.objectHtFt
    ensures matches[i].shape == FullOnly <==> c.objectHtFt <= i < c.objectHtFt + c.objectFt
  {
    assert matches[i] == MatchAt(c, fixtures[i], i);
  }
}
