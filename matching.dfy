/** The recommender: the Jaccard index of two users' lower-cased tag sets,
    and the ranking of candidates by that score. Scores are exact reals. */
module Matching {
  import opened Common
  import opened Text
  import opened Sorting
  import opened UserModel

  /** `new Set([...skills, ...interests].map(t => t.toLowerCase()))`. */
  function Tags(u: User): set<string> {
    set t | t in u.skills + u.interests :: Lower(t)
  }

  /** Every skill or interest is present in lower case, and every member of the
      set is lower case, so tags are compared case-insensitively. */
  lemma TagsAreLowered(u: User)
    ensures forall t :: t in u.skills + u.interests ==> Lower(t) in Tags(u)
    ensures forall x :: x in Tags(u) ==> Lower(x) == x
  {
    forall x | x in Tags(u) ensures Lower(x) == x {
      var t :| t in u.skills + u.interests && x == Lower(t);
      LowerIdempotent(t);
    }
  }

  /** Two users whose tags agree once lower-cased, position by position, have
      the same tag set. */
  lemma TagsIgnoreCase(u: User, v: User)
    requires MapSeq(u.skills + u.interests, Lower) == MapSeq(v.skills + v.interests, Lower)
    ensures Tags(u) == Tags(v)
  {
    var su, sv := u.skills + u.interests, v.skills + v.interests;
    forall x | x in Tags(u) ensures x in Tags(v) {
      var t :| t in su && x == Lower(t);
      var i :| 0 <= i < |su| && su[i] == t;
      assert MapSeq(sv, Lower)[i] == x;
      assert sv[i] in sv;
    }
    forall x | x in Tags(v) ensures x in Tags(u) {
      var t :| t in sv && x == Lower(t);
      var i :| 0 <= i < |sv| && sv[i] == t;
      assert MapSeq(su, Lower)[i] == x;
      assert su[i] in su;
    }
  }

  /** Repeating a tag or reordering tags leaves the set unchanged. */
  lemma TagsIgnoreDuplicates(u: User, v: User)
    requires forall t :: t in u.skills + u.interests <==> t in v.skills + v.interests
    ensures Tags(u) == Tags(v)
  {
  }

  /** |A ∩ B| / |A ∪ B|, or 0 when either set is empty. */
  function Jaccard(A: set<string>, B: set<string>): (r: real)
    ensures 0.0 <= r <= 1.0
  {
    if |A| == 0 || |B| == 0 then 0.0
    else
      assert |A + B| == |A - B| + |B - A| + |A * B|;
      Ratio(|A * B|, |A + B|)
  }

  function Ratio(n: nat, d: nat): (r: real)
    requires 0 < d && n <= d
    ensures 0.0 <= r <= 1.0
    ensures r * (d as real) == n as real
  {
    (n as real) / (d as real)
  }

  /** `calculateSimilarity(a, b)`. */
  function Similarity(a: User, b: User): real {
    Jaccard(Tags(a), Tags(b))
  }

  /** The score is a fraction in [0, 1]: 0 when either tag set is empty and
      otherwise |A ∩ B| / |A ∪ B|. */
  lemma SimilarityIsJaccard(a: User, b: User)
    ensures 0.0 <= Similarity(a, b) <= 1.0
    ensures Tags(a) == {} || Tags(b) == {} ==> Similarity(a, b) == 0.0
    ensures Tags(a) != {} && Tags(b) != {} ==>
      Similarity(a, b) * (|Tags(a) + Tags(b)| as real) == |Tags(a) * Tags(b)| as real
  {
  }

  lemma SimilaritySymmetric(a: User, b: User)
    ensures Similarity(a, b) == Similarity(b, a)
  {
    assert Tags(a) * Tags(b) == Tags(b) * Tags(a);
    assert Tags(a) + Tags(b) == Tags(b) + Tags(a);
  }

  /** With both tag sets non-empty, the score is 1 exactly when they are equal. */
  lemma SimilarityOneIffEqual(a: User, b: User)
    requires Tags(a) != {} && Tags(b) != {}
    ensures Similarity(a, b) == 1.0 <==> Tags(a) == Tags(b)
  {
    JaccardOneIffEqual(Tags(a), Tags(b));
  }

  lemma JaccardOneIffEqual(A: set<string>, B: set<string>)
    requires A != {} && B != {}
    ensures Jaccard(A, B) == 1.0 <==> A == B
  {
    assert |A + B| == |A - B| + |B - A| + |A * B|;
    if Jaccard(A, B) == 1.0 {
      assert |A * B| == |A + B|;
      assert A - B == {} && B - A == {};
      assert A <= B && B <= A;
    }
    if A == B {
      assert A * B == A && A + B == A;
    }
  }

  /** The score is 0 exactly when the tag sets share no tag. */
  lemma SimilarityZeroIffDisjoint(a: User, b: User)
    ensures Similarity(a, b) == 0.0 <==> Tags(a) * Tags(b) == {}
  {
    JaccardZeroIffDisjoint(Tags(a), Tags(b));
  }

  lemma JaccardZeroIffDisjoint(A: set<string>, B: set<string>)
    ensures Jaccard(A, B) == 0.0 <==> A * B == {}
  {
    if |A| == 0 {
      assert A * B == {};
    } else if |B| == 0 {
      assert A * B == {};
    } else if A * B != {} {
      assert |A * B| > 0;
    }
  }

  /** One ranked entry, `{ user, score }`. */
  datatype Scored = Scored(user: User, score: real)

  function ScoreOf(current: User): User -> Scored {
    c => Scored(c, Similarity(current, c))
  }

  function ScoreKey(e: Scored): real {
    e.score
  }

  /** `getRecommendations(current, candidates)`: each candidate paired with its
      score, sorted by descending score (ties keep the candidates' order). */
  function Recommendations(current: User, candidates: seq<User>): (r: seq<Scored>)
    ensures |r| == |candidates|
    ensures multiset(r) == multiset(MapSeq(candidates, ScoreOf(current)))
    ensures forall i :: 0 <= i < |r| ==> r[i].score == Similarity(current, r[i].user)
    ensures forall i, j :: 0 <= i < j < |r| ==> r[i].score >= r[j].score
  {
    var scored := MapSeq(candidates, ScoreOf(current));
    var r := SortBy(scored, Negated(ScoreKey));
    DescendingOrder(scored, ScoreKey);
    forall i | 0 <= i < |r| ensures r[i].score == Similarity(current, r[i].user) {
      assert r[i] in multiset(scored);
    }
    r
  }

  /** The users ranked are exactly the candidates, each as often as it was given. */
  lemma RecommendationsPermuteCandidates(current: User, candidates: seq<User>)
    ensures multiset(MapSeq(Recommendations(current, candidates), (e: Scored) => e.user))
         == multiset(candidates)
  {
    var user := (e: Scored) => e.user;
    var scored := MapSeq(candidates, ScoreOf(current));
    MapPermutation(Recommendations(current, candidates), scored, user);
    assert MapSeq(scored, user) == candidates;
  }
}
