/** The "AI select" route: every application to the owner's form gets a compatibility
    score from the applicant's location and age, the scored applications are sorted by
    score, highest first, and the first `limit` of them are returned. */
module CandidateRanking {
  import opened Text
  import opened Lists

  /** The profile columns the score reads. A missing column is `None`; JavaScript
      truthiness then also rejects the empty location and the age 0. */
  datatype Profile = Profile(location: Option<string>, age: Option<int>)

  /** The joined `user_profiles` value: absent, one row, or an array of rows. */
  datatype Joined = Absent | Row(profile: Profile) | Rows(rows: seq<Profile>)

  /** An application row; `rest` stands for its other columns, which are passed through. */
  datatype Application = Application(id: string, rest: string, applicant: Joined)

  /** `{ ...app, ai_score: score }`. */
  datatype Scored = Scored(app: Application, aiScore: int)

  const DefaultLimit := 3

  // ---------------------------------------------------------------- scoring

  /** `Array.isArray(j) ? j[0] : j`, read for truthiness: an empty array gives nothing. */
  function CandidateProfile(j: Joined): Option<Profile> {
    match j
    case Absent => None
    case Row(p) => Some(p)
    case Rows(rows) => if rows == [] then None else Some(rows[0])
  }

  predicate HasLocation(p: Profile) {
    p.location.Some? && p.location.value != []
  }

  predicate HasAge(p: Profile) {
    p.age.Some? && p.age.value != 0
  }

  function Abs(x: int): nat {
    if x < 0 then -x else x
  }

  /** 10 points when both locations are set and equal. */
  function LocationPoints(user: Profile, candidate: Profile): (r: int)
    ensures r == 10 <==> HasLocation(user) && HasLocation(candidate) && candidate.location == user.location
    ensures r == 0 || r == 10
  {
    if HasLocation(user) && HasLocation(candidate) && candidate.location == user.location then 10 else 0
  }

  /** `Math.max(0, 10 - |user age - candidate age|)` when both ages are set. */
  function AgePoints(user: Profile, candidate: Profile): (r: int)
    ensures 0 <= r <= 10
    ensures r == 10 <==> HasAge(user) && HasAge(candidate) && user.age == candidate.age
    ensures HasAge(user) && HasAge(candidate) && Abs(user.age.value - candidate.age.value) >= 10 ==> r == 0
  {
    if HasAge(user) && HasAge(candidate) then
      var d := Abs(user.age.value - candidate.age.value);
      if 10 - d > 0 then 10 - d else 0
    else 0
  }

  /** The score of one applicant: 0 unless both profiles are there, otherwise the
      location and age points. */
  function Score(user: Option<Profile>, candidate: Option<Profile>): (r: int)
    ensures 0 <= r <= 20
    ensures user.None? || candidate.None? ==> r == 0
  {
    if candidate.Some? && user.Some? then
      LocationPoints(user.value, candidate.value) + AgePoints(user.value, candidate.value)
    else 0
  }

  /** The full 20 points go exactly to a candidate with the user's location and age. */
  lemma FullScore(user: Profile, candidate: Profile)
    ensures Score(Some(user), Some(candidate)) == 20 <==>
      HasLocation(user) && candidate.location == user.location && HasAge(user) && candidate.age == user.age
  {
  }

  /** `applications.map(...)`: every application, in order, with its score added. */
  function ScoreAll(apps: seq<Application>, user: Option<Profile>): (r: seq<Scored>)
    ensures |r| == |apps|
    ensures forall k :: 0 <= k < |apps| ==> r[k].app == apps[k]
    ensures forall k :: 0 <= k < |apps| ==> r[k].aiScore == Score(user, CandidateProfile(apps[k].applicant))
  {
    seq(|apps|, k requires 0 <= k < |apps| => Scored(apps[k], Score(user, CandidateProfile(apps[k].applicant))))
  }

  // ---------------------------------------------------------------- sorting

  predicate SortedDesc(s: seq<Scored>) {
    forall i, j :: 0 <= i < j < |s| ==> s[i].aiScore >= s[j].aiScore
  }

  function ScoreIs(v: int): Scored -> bool {
    (x: Scored) => x.aiScore == v
  }

  /** `x` placed in front of the first element that does not beat it. */
  function Insert(x: Scored, s: seq<Scored>): seq<Scored>
  {
    if s == [] || x.aiScore >= s[0].aiScore then [x] + s else [s[0]] + Insert(x, s[1..])
  }

  /** `sort((a, b) => b.ai_score - a.ai_score)`: a stable sort, highest score first. */
  function SortDesc(s: seq<Scored>): seq<Scored>
  {
    if s == [] then [] else Insert(s[0], SortDesc(s[1..]))
  }

  /** Putting an element that beats the head in front keeps a list sorted. */
  lemma ConsSorted(a: Scored, t: seq<Scored>)
    requires SortedDesc(t) && (t == [] || a.aiScore >= t[0].aiScore)
    ensures SortedDesc([a] + t)
  {
    var r := [a] + t;
    forall i, j | 0 <= i < j < |r| ensures r[i].aiScore >= r[j].aiScore {
      if i == 0 {
        assert r[j] == t[j - 1];
        assert t[0].aiScore >= t[j - 1].aiScore;
      } else {
        assert r[i] == t[i - 1] && r[j] == t[j - 1];
      }
    }
  }

  lemma {:induction false} InsertSorted(x: Scored, s: seq<Scored>)
    requires SortedDesc(s)
    ensures SortedDesc(Insert(x, s))
    ensures Insert(x, s)[0] == (if s == [] || x.aiScore >= s[0].aiScore then x else s[0])
  {
    if s == [] || x.aiScore >= s[0].aiScore {
      ConsSorted(x, s);
    } else {
      var t := Insert(x, s[1..]);
      InsertSorted(x, s[1..]);
      assert t[0] == x || t[0] == s[1];
      ConsSorted(s[0], t);
    }
  }

  /** Insertion adds exactly the one element. */
  lemma {:induction false} InsertAdds(x: Scored, s: seq<Scored>)
    ensures |Insert(x, s)| == |s| + 1
    ensures multiset(Insert(x, s)) == multiset(s) + multiset{x}
  {
    if s != [] && x.aiScore < s[0].aiScore {
      InsertAdds(x, s[1..]);
      assert s == [s[0]] + s[1..];
    }
  }

  /** Among the elements with score `v`, insertion puts `x` first when it has that score,
      and leaves them alone otherwise. */
  lemma {:induction false} InsertStable(x: Scored, s: seq<Scored>, v: int)
    ensures Filter(Insert(x, s), ScoreIs(v)) == if x.aiScore == v then [x] + Filter(s, ScoreIs(v)) else Filter(s, ScoreIs(v))
  {
    if s == [] || x.aiScore >= s[0].aiScore {
      assert ([x] + s)[1..] == s;
    } else {
      InsertStable(x, s[1..], v);
      assert ([s[0]] + Insert(x, s[1..]))[1..] == Insert(x, s[1..]);
      assert s[0].aiScore != v || x.aiScore != v;
    }
  }

  /** The sort orders by score, keeps exactly the same elements, and keeps the input order
      among elements of equal score. */
  lemma {:induction false} SortDescCorrect(s: seq<Scored>)
    ensures SortedDesc(SortDesc(s))
    ensures |SortDesc(s)| == |s|
    ensures multiset(SortDesc(s)) == multiset(s)
    ensures forall v :: Filter(SortDesc(s), ScoreIs(v)) == Filter(s, ScoreIs(v))
  {
    SortDescPermutes(s);
    forall v ensures Filter(SortDesc(s), ScoreIs(v)) == Filter(s, ScoreIs(v)) {
      SortDescStable(s, v);
    }
  }

  lemma {:induction false} SortDescPermutes(s: seq<Scored>)
    ensures SortedDesc(SortDesc(s))
    ensures |SortDesc(s)| == |s|
    ensures multiset(SortDesc(s)) == multiset(s)
  {
    if s != [] {
      SortDescPermutes(s[1..]);
      InsertSorted(s[0], SortDesc(s[1..]));
      InsertAdds(s[0], SortDesc(s[1..]));
      assert s == [s[0]] + s[1..];
    }
  }

  lemma {:induction false} SortDescStable(s: seq<Scored>, v: int)
    ensures Filter(SortDesc(s), ScoreIs(v)) == Filter(s, ScoreIs(v))
  {
    if s != [] {
      SortDescStable(s[1..], v);
      InsertStable(s[0], SortDesc(s[1..]), v);
    }
  }

  // ---------------------------------------------------------------- the top candidates

  /** `s.slice(0, limit)`: a negative limit counts back from the end. */
  function SliceTo(s: seq<Scored>, limit: int): (r: seq<Scored>)
    ensures limit >= 0 ==> |r| == if limit < |s| then limit else |s|
    ensures limit < 0 ==> |r| == if |s| + limit > 0 then |s| + limit else 0
    ensures r == s[..|r|]
  {
    var e := if limit < 0 then (if |s| + limit > 0 then |s| + limit else 0)
             else if limit < |s| then limit else |s|;
    s[..e]
  }

  /** The scored applications, sorted, cut to `limit`. */
  function Top(scored: seq<Scored>, limit: int): seq<Scored> {
    SliceTo(SortDesc(scored), limit)
  }

  /** What is cut off a list sorted highest first scores no more than what is kept. */
  lemma CutOffScoresLower(sorted: seq<Scored>, e: nat)
    requires SortedDesc(sorted) && 0 < e <= |sorted|
    ensures forall x :: x in multiset(sorted) - multiset(sorted[..e]) ==> x.aiScore <= sorted[e - 1].aiScore
  {
    assert sorted == sorted[..e] + sorted[e..];
    assert multiset(sorted) == multiset(sorted[..e]) + multiset(sorted[e..]);
    forall x | x in multiset(sorted) - multiset(sorted[..e])
      ensures x.aiScore <= sorted[e - 1].aiScore
    {
      assert x in sorted[e..];
      var j :| 0 <= j < |sorted[e..]| && sorted[e..][j] == x;
      assert sorted[e + j] == x;
    }
  }

  /** What the route promises about its answer: highest scores first, the requested
      number of candidates (or all of them), each one from the input, and nobody left out
      scoring above the last one returned. */
  lemma TopCandidates(scored: seq<Scored>, limit: int)
    ensures SortedDesc(Top(scored, limit))
    ensures limit >= 0 ==> |Top(scored, limit)| == if limit < |scored| then limit else |scored|
    ensures |Top(scored, limit)| <= |scored|
    ensures multiset(Top(scored, limit)) <= multiset(scored)
    ensures forall x :: x in multiset(scored) - multiset(Top(scored, limit)) && Top(scored, limit) != [] ==>
              x.aiScore <= Top(scored, limit)[|Top(scored, limit)| - 1].aiScore
  {
    var sorted := SortDesc(scored);
    SortDescCorrect(scored);
    var r := Top(scored, limit);
    SortedPrefix(sorted, |r|);
    if r != [] {
      CutOffScoresLower(sorted, |r|);
    }
  }

  /** A prefix of a sorted list is sorted and is part of it. */
  lemma SortedPrefix(sorted: seq<Scored>, e: nat)
    requires SortedDesc(sorted) && e <= |sorted|
    ensures SortedDesc(sorted[..e])
    ensures multiset(sorted[..e]) <= multiset(sorted)
  {
    assert sorted == sorted[..e] + sorted[e..];
    assert multiset(sorted) == multiset(sorted[..e]) + multiset(sorted[e..]);
  }

  // ---------------------------------------------------------------- the route

  datatype Response = Unauthorized | Candidates(topCandidates: seq<Scored>)

  /** The route once the request body and the database reads are in: `authHeader` is the
      authorization header, `userFound` whether the token resolved to a user, `limit` the
      body's `limit` if given. */
  function AiSelect(authHeader: Option<string>, userFound: bool, apps: seq<Application>,
                    userProfile: Option<Profile>, limit: Option<int>): (r: Response)
    ensures r == Unauthorized <==> authHeader.None? || authHeader.value == [] || !userFound
    ensures r.Candidates? && apps == [] ==> r.topCandidates == []
    ensures r.Candidates? ==> |r.topCandidates| <= |apps|
    ensures r.Candidates? && apps != [] ==> r.topCandidates == Top(ScoreAll(apps, userProfile), EffectiveLimit(limit))
    ensures r.Candidates? ==> SortedDesc(r.topCandidates)
                              && multiset(r.topCandidates) <= multiset(ScoreAll(apps, userProfile))
    ensures r.Candidates? && EffectiveLimit(limit) >= 0 ==>
              |r.topCandidates| == if EffectiveLimit(limit) < |apps| then EffectiveLimit(limit) else |apps|
  {
    if authHeader.None? || authHeader.value == [] then Unauthorized
    else if !userFound then Unauthorized
    else if apps == [] then Candidates([])
    else
      var scored := ScoreAll(apps, userProfile);
      TopCandidates(scored, EffectiveLimit(limit));
      Candidates(Top(scored, EffectiveLimit(limit)))
  }

  /** `const { limit = 3 } = body`: the body's limit, or 3 when it has none. */
  function EffectiveLimit(limit: Option<int>): int {
    if limit.Some? then limit.value else DefaultLimit
  }

  /** Without a limit in the body, at most three candidates come back. */
  lemma DefaultTopThree(header: string, apps: seq<Application>, userProfile: Option<Profile>)
    requires header != []
    ensures var r := AiSelect(Some(header), true, apps, userProfile, None);
            r.Candidates? && |r.topCandidates| == if |apps| < 3 then |apps| else 3
  {
    if apps != [] {
      TopCandidates(ScoreAll(apps, userProfile), DefaultLimit);
    }
  }
}
