/**
 * A student's ELO record: a rating per topic with attempt and correct counts,
 * and an overall rating that is the rounded mean of the topic ratings.
 */
module UserSkillModel {
  import opened Optional
  import opened JsCore
  import Assoc

  const DefaultRating := 1000

  datatype TopicSkill = TopicSkill(rating: int, attempts: int, correct: int)

  /** The skill of a topic nobody has attempted. */
  const NewTopicSkill := TopicSkill(DefaultRating, 0, 0)

  function Ratings(skills: seq<(string, TopicSkill)>): (r: seq<int>)
    ensures |r| == |skills|
    ensures forall i :: 0 <= i < |skills| ==> r[i] == skills[i].1.rating
  {
    if skills == [] then [] else [skills[0].1.rating] + Ratings(skills[1..])
  }

  function Sum(xs: seq<int>): int {
    if xs == [] then 0 else xs[0] + Sum(xs[1..])
  }

  /** `Math.round(sum / count)` of the ratings, and 1000 when there are none. */
  function Overall(ratings: seq<int>): (r: int)
    ensures ratings == [] ==> r == DefaultRating
    ensures ratings != [] ==> Round(Sum(ratings) as real / |ratings| as real) == r
  {
    if ratings == [] then DefaultRating else Round(Sum(ratings) as real / |ratings| as real)
  }

  /** The sum of ratings between two bounds lies between the bounds times the count. */
  lemma {:induction false} SumBetween(xs: seq<int>, lo: int, hi: int)
    requires forall i :: 0 <= i < |xs| ==> lo <= xs[i] <= hi
    ensures lo * |xs| <= Sum(xs) <= hi * |xs|
  {
    if xs != [] {
      SumBetween(xs[1..], lo, hi);
    }
  }

  /** When every rating lies in [lo, hi], so does the overall rating. */
  lemma OverallBetween(ratings: seq<int>, lo: int, hi: int)
    requires lo <= DefaultRating <= hi
    requires forall i :: 0 <= i < |ratings| ==> lo <= ratings[i] <= hi
    ensures lo <= Overall(ratings) <= hi
  {
    if ratings != [] {
      SumBetween(ratings, lo, hi);
      MeanBetween(Sum(ratings), |ratings|, lo, hi);
      RoundBetween(Sum(ratings) as real / |ratings| as real, lo, hi);
    }
  }

  lemma MeanBetween(s: int, n: int, lo: int, hi: int)
    requires n > 0 && lo * n <= s <= hi * n
    ensures lo as real <= s as real / n as real <= hi as real
  {
    CastProduct(lo, n);
    CastProduct(hi, n);
    var q := s as real / n as real;
    assert q * n as real == s as real;
  }

  lemma CastProduct(a: int, b: int)
    ensures (a * b) as real == a as real * b as real
  {
  }

  /** The overall rating of equal ratings is that rating. */
  lemma {:induction false} OverallOfEqual(ratings: seq<int>, x: int)
    requires ratings != [] && forall i :: 0 <= i < |ratings| ==> ratings[i] == x
    ensures Overall(ratings) == x
  {
    SumBetween(ratings, x, x);
    var n := |ratings| as real;
    assert Sum(ratings) as real == x as real * n;
    assert Sum(ratings) as real / n == x as real;
    RoundOfInt(x);
  }

  /** The stored document of one student. */
  class UserSkill {
    var topicSkills: seq<(string, TopicSkill)>
    var overallRating: int
    var totalAttempts: int
    var totalCorrect: int

    /** A new record: no topics, overall 1000, no attempts. */
    constructor ()
      ensures topicSkills == [] && overallRating == DefaultRating
      ensures totalAttempts == 0 && totalCorrect == 0
    {
      topicSkills := [];
      overallRating := DefaultRating;
      totalAttempts := 0;
      totalCorrect := 0;
    }

    /** `getTopicSkill`: the stored skill, or a fresh one at 1000 with no attempts. */
    function GetTopicSkill(topic: string): (s: TopicSkill)
      reads this
      ensures Assoc.Find(topicSkills, topic).Some? ==> s == Assoc.Find(topicSkills, topic).value
      ensures Assoc.Find(topicSkills, topic).None? ==> s == NewTopicSkill
    {
      match Assoc.Find(topicSkills, topic)
      case Some(skill) => skill
      case None => NewTopicSkill
    }

    /** `recalcOverall`: without topics, 1000 and the stored overall left alone; otherwise
        the rounded mean of the topic ratings, stored and returned. */
    method RecalcOverall() returns (r: int)
      modifies this
      ensures topicSkills == [] ==> r == DefaultRating && overallRating == old(overallRating)
      ensures topicSkills != [] ==> r == overallRating == Overall(Ratings(topicSkills))
      ensures topicSkills == old(topicSkills) && totalAttempts == old(totalAttempts) && totalCorrect == old(totalCorrect)
    {
      var skills := topicSkills;
      if |skills| == 0 {
        return DefaultRating;
      }
      var sum := 0;
      for i := 0 to |skills|
        invariant sum == Sum(Ratings(skills[..i]))
        invariant topicSkills == skills && overallRating == old(overallRating)
        invariant totalAttempts == old(totalAttempts) && totalCorrect == old(totalCorrect)
      {
        SumSnoc(Ratings(skills[..i]), skills[i].1.rating);
        assert Ratings(skills[..i + 1]) == Ratings(skills[..i]) + [skills[i].1.rating];
        sum := sum + skills[i].1.rating;
      }
      assert skills[..|skills|] == skills;
      overallRating := Round(sum as real / |skills| as real);
      r := overallRating;
    }
  }

  lemma {:induction false} SumSnoc(xs: seq<int>, x: int)
    ensures Sum(xs + [x]) == Sum(xs) + x
  {
    if xs != [] {
      SumSnoc(xs[1..], x);
      assert (xs + [x])[1..] == xs[1..] + [x];
    }
  }
}
