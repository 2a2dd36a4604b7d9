/** The mock candidate source of mock_data.py: the scoring formula
    (`score_candidate`) and the shuffle, truncate, score and sort pipeline
    (`fetch_mock_candidates`) over the fixed sample pool. The two random
    inputs are parameters: the draws of `random.shuffle` and the
    `random.randint(-3, 3)` noise of each scored candidate. */
module MockData {
  import opened Text

  /** A pool record: `name`, `skills`, `exp` and `location`. */
  datatype Candidate = Candidate(name: string, skills: seq<string>, exp: int, location: string)

  /** A result record: the pool record's fields and the `match` score. */
  datatype ScoredCandidate = ScoredCandidate(name: string, skills: seq<string>, exp: int, location: string,
                                             matchScore: int)

  /** `SAMPLE_POOL`. */
  const SamplePool: seq<Candidate> := [
    Candidate("Ankit Sharma", ["Java", "Spring Boot", "SQL"], 4, "Bangalore"),
    Candidate("Priya Verma", ["Java", "Microservices", "Docker"], 5, "Bangalore"),
    Candidate("Rahul Gupta", ["Python", "Django", "Postgres"], 3, "Hyderabad"),
    Candidate("Sneha Joshi", ["Java", "Spring", "Kubernetes"], 6, "Pune"),
    Candidate("Neha Singh", ["JavaScript", "React", "Node"], 4, "Bangalore")
  ]

  // ---------------------------------------------------------------------------
  // Scoring

  /** `cand_skills`: the lower-cased skills. */
  function SkillSet(c: Candidate): set<string>
  {
    set s | s in c.skills :: Lower(s)
  }

  /** `kw`: the lower-cased keywords, duplicates kept. */
  function LowerAll(keywords: seq<string>): seq<string>
  {
    seq(|keywords|, i requires 0 <= i < |keywords| => Lower(keywords[i]))
  }

  /** Some lower-cased keyword is one of the lower-cased skills. */
  predicate AnyHit(kw: seq<string>, skills: set<string>)
    ensures AnyHit(kw, skills) ==> |kw| > 0 && |skills| > 0
  {
    kw != [] && (kw[0] in skills || AnyHit(kw[1..], skills))
  }

  /** The number of lower-cased keywords that are lower-cased skills, each entry
      of `kw` counted, so a repeated keyword counts again. */
  function MatchCount(kw: seq<string>, skills: set<string>): (m: nat)
    ensures m <= |kw|
    ensures m > 0 <==> AnyHit(kw, skills)
  {
    if kw == [] then 0 else (if kw[0] in skills then 1 else 0) + MatchCount(kw[1..], skills)
  }

  /** The count adds up over a split keyword list. */
  lemma {:induction false} MatchCountAppend(a: seq<string>, b: seq<string>, skills: set<string>)
    ensures MatchCount(a + b, skills) == MatchCount(a, skills) + MatchCount(b, skills)
  {
    if a != [] {
      assert (a + b)[1..] == a[1..] + b;
      MatchCountAppend(a[1..], b, skills);
    } else {
      assert a + b == b;
    }
  }

  /** A hit is an entry of `kw` that is in the set. */
  lemma {:induction false} AnyHitIff(kw: seq<string>, skills: set<string>)
    ensures AnyHit(kw, skills) <==> exists i :: 0 <= i < |kw| && kw[i] in skills
  {
    if kw != [] {
      AnyHitIff(kw[1..], skills);
      if AnyHit(kw[1..], skills) {
        var i :| 0 <= i < |kw[1..]| && kw[1..][i] in skills;
        assert kw[i + 1] in skills;
      }
      if exists i :: 0 <= i < |kw| && kw[i] in skills {
        var i :| 0 <= i < |kw| && kw[i] in skills;
        if i > 0 {
          assert kw[1..][i - 1] in skills;
        }
      }
    }
  }

  /** The keyword bonus is earned exactly when some keyword equals some skill up to
      case: whole-string equality, so "Java" never matches "JavaScript". */
  lemma HitIffEqualIgnoringCase(c: Candidate, keywords: seq<string>)
    ensures AnyHit(LowerAll(keywords), SkillSet(c))
        <==> exists k, s :: k in keywords && s in c.skills && Lower(k) == Lower(s)
  {
    var kw := LowerAll(keywords);
    AnyHitIff(kw, SkillSet(c));
    if AnyHit(kw, SkillSet(c)) {
      var i :| 0 <= i < |kw| && kw[i] in SkillSet(c);
      var s :| s in c.skills && Lower(s) == kw[i];
      assert keywords[i] in keywords && Lower(keywords[i]) == Lower(s);
    }
    if exists k, s :: k in keywords && s in c.skills && Lower(k) == Lower(s) {
      var k, s :| k in keywords && s in c.skills && Lower(k) == Lower(s);
      var i :| 0 <= i < |keywords| && keywords[i] == k;
      assert kw[i] in SkillSet(c);
    }
  }

  /** Neha Singh of the pool knows "JavaScript", which the keyword "Java" does not hit. */
  lemma JavaIsNotJavaScript()
    ensures !AnyHit(LowerAll(["Java"]), SkillSet(SamplePool[4]))
  {
    var c := SamplePool[4];
    assert Lower("Java") == "java";
    assert Lower("JavaScript") == "javascript";
    assert Lower("React") == "react";
    assert Lower("Node") == "node";
    assert SkillSet(c) == {"javascript", "react", "node"};
    assert LowerAll(["Java"]) == ["java"];
  }

  function Min(a: int, b: int): int
  {
    if a <= b then a else b
  }

  /** The location bonus applies: a non-empty location is asked for, the candidate
      has a non-empty location, and the asked-for location occurs in it, both
      lower-cased. */
  predicate LocationHit(location: Option<string>, candidateLocation: string)
    ensures LocationHit(location, candidateLocation) <==>
              Truthy(location) && candidateLocation != ""
              && exists i :: OccursAt(Lower(location.value), Lower(candidateLocation), i)
    ensures LocationHit(location, candidateLocation) ==> |location.value| <= |candidateLocation|
  {
    if !Truthy(location) then false
    else
      IsSubstringIff(Lower(location.value), Lower(candidateLocation));
      candidateLocation != "" && IsSubstring(Lower(location.value), Lower(candidateLocation))
  }

  /** The accumulated `score` before clamping. */
  function RawScore(c: Candidate, keywords: seq<string>, location: Option<string>, noise: int): (r: int)
    ensures c.exp >= 0 ==> noise <= r <= noise + 105
  {
    var kw := LowerAll(keywords);
    var skills := SkillSet(c);
    (if AnyHit(kw, skills) then 30 else 0)
    + Min(MatchCount(kw, skills) * 10, 40)
    + (if LocationHit(location, c.location) then 10 else 0)
    + Min(c.exp * 5, 25)
    + noise
  }

  /** The score limited to the range from 0 to 100. */
  function Clamp(x: int): (r: int)
    ensures 0 <= r <= 100
    ensures 0 <= x <= 100 ==> r == x
    ensures x < 0 ==> r == 0
    ensures x > 100 ==> r == 100
  {
    if x < 0 then 0 else Min(100, x)
  }

  /** The score of one candidate, with its random draw from -3 to 3 given as `noise`. */
  function Score(c: Candidate, keywords: seq<string>, role: Option<string>, location: Option<string>,
                 noise: int): (r: int)
    requires -3 <= noise <= 3
    ensures 0 <= r <= 100
  {
    Clamp(RawScore(c, keywords, location, noise))
  }

  /** Before clamping the score of a candidate with no negative experience lies in
      [-3, 108], so the clamp is needed at both ends. */
  lemma RawScoreRange(c: Candidate, keywords: seq<string>, location: Option<string>, noise: int)
    requires c.exp >= 0 && -3 <= noise <= 3
    ensures -3 <= RawScore(c, keywords, location, noise) <= 108
  {
    var kw := LowerAll(keywords);
    if AnyHit(kw, SkillSet(c)) {
      assert MatchCount(kw, SkillSet(c)) > 0;
    }
  }

  /** Four or more hits, a location hit, five years or more and any noise reach
      the upper clamp. */
  lemma ScoreCapsAtHundred(c: Candidate, keywords: seq<string>, role: Option<string>, location: Option<string>,
                           noise: int)
    requires -3 <= noise <= 3
    requires MatchCount(LowerAll(keywords), SkillSet(c)) >= 4
    requires LocationHit(location, c.location) && c.exp >= 5
    ensures Score(c, keywords, role, location, noise) == 100
  {
    assert RawScore(c, keywords, location, noise) == 30 + 40 + 10 + 25 + noise;
  }

  /** No hit, no location hit, no experience and negative noise reach the lower
      clamp. */
  lemma ScoreFloorsAtZero(c: Candidate, keywords: seq<string>, role: Option<string>, location: Option<string>,
                          noise: int)
    requires -3 <= noise < 0
    requires !AnyHit(LowerAll(keywords), SkillSet(c))
    requires !LocationHit(location, c.location) && c.exp <= 0
    ensures Score(c, keywords, role, location, noise) == 0
  {
    assert MatchCount(LowerAll(keywords), SkillSet(c)) == 0;
  }

  /** Within the clamp the score is the sum of its four parts and the noise; the
      keyword bonus needs a hit, the per-hit part stops at four hits. */
  lemma ScoreParts(c: Candidate, keywords: seq<string>, role: Option<string>, location: Option<string>,
                   noise: int)
    requires -3 <= noise <= 3
    ensures var hits := MatchCount(LowerAll(keywords), SkillSet(c));
            var raw := (if hits > 0 then 30 else 0) + 10 * (if hits < 4 then hits else 4)
                       + (if LocationHit(location, c.location) then 10 else 0)
                       + 5 * (if c.exp < 5 then c.exp else 5) + noise;
            Score(c, keywords, role, location, noise) == (if raw < 0 then 0 else if raw > 100 then 100 else raw)
  {
  }

  /** The `role` argument never changes the score. */
  lemma RoleHasNoEffect(c: Candidate, keywords: seq<string>, role: Option<string>, other: Option<string>,
                        location: Option<string>, noise: int)
    requires -3 <= noise <= 3
    ensures Score(c, keywords, role, location, noise) == Score(c, keywords, other, location, noise)
  {
  }

  // ---------------------------------------------------------------------------
  // Ranking: `results.sort(key=lambda x: x["match"], reverse=True)`

  /** Non-increasing by `match`. */
  ghost predicate SortedByMatch(rs: seq<ScoredCandidate>)
  {
    forall i, j :: 0 <= i < j < |rs| ==> rs[i].matchScore >= rs[j].matchScore
  }

  /** The records with score `m`, in their order in `rs`. */
  function WithMatch(rs: seq<ScoredCandidate>, m: int): seq<ScoredCandidate>
  {
    if rs == [] then [] else (if rs[0].matchScore == m then [rs[0]] else []) + WithMatch(rs[1..], m)
  }

  lemma {:induction false} WithMatchAppend(a: seq<ScoredCandidate>, b: seq<ScoredCandidate>, m: int)
    ensures WithMatch(a + b, m) == WithMatch(a, m) + WithMatch(b, m)
  {
    if a != [] {
      assert (a + b)[1..] == a[1..] + b;
      WithMatchAppend(a[1..], b, m);
    } else {
      assert a + b == b;
    }
  }

  /** Places `x` after every record scoring at least as much. */
  function Insert(x: ScoredCandidate, rs: seq<ScoredCandidate>): (r: seq<ScoredCandidate>)
    ensures |r| == |rs| + 1
  {
    if rs == [] then [x]
    else if rs[0].matchScore >= x.matchScore then [rs[0]] + Insert(x, rs[1..])
    else [x] + rs
  }

  /** A stable sort by score, highest first, as an insertion sort. */
  function SortByMatch(rs: seq<ScoredCandidate>): (r: seq<ScoredCandidate>)
    ensures |r| == |rs|
  {
    if rs == [] then [] else Insert(rs[|rs| - 1], SortByMatch(rs[..|rs| - 1]))
  }

  lemma {:induction false} InsertElements(x: ScoredCandidate, rs: seq<ScoredCandidate>)
    ensures multiset(Insert(x, rs)) == multiset(rs) + multiset{x}
  {
    if rs != [] && rs[0].matchScore >= x.matchScore {
      InsertElements(x, rs[1..]);
      assert rs == [rs[0]] + rs[1..];
    }
  }

  lemma {:induction false} InsertMembers(x: ScoredCandidate, rs: seq<ScoredCandidate>)
    ensures forall y :: y in Insert(x, rs) ==> y in rs || y == x
  {
    if rs != [] && rs[0].matchScore >= x.matchScore {
      InsertMembers(x, rs[1..]);
    }
  }

  lemma {:induction false} InsertSorted(x: ScoredCandidate, rs: seq<ScoredCandidate>)
    requires SortedByMatch(rs)
    ensures SortedByMatch(Insert(x, rs))
  {
    if rs != [] && rs[0].matchScore >= x.matchScore {
      var rest := Insert(x, rs[1..]);
      InsertSorted(x, rs[1..]);
      InsertMembers(x, rs[1..]);
      assert forall y :: y in rest ==> rs[0].matchScore >= y.matchScore;
      assert Insert(x, rs) == [rs[0]] + rest;
    }
  }

  lemma {:induction false} InsertStable(x: ScoredCandidate, rs: seq<ScoredCandidate>, m: int)
    requires SortedByMatch(rs)
    ensures WithMatch(Insert(x, rs), m) == WithMatch(rs, m) + (if x.matchScore == m then [x] else [])
  {
    if rs == [] {
    } else if rs[0].matchScore >= x.matchScore {
      InsertStable(x, rs[1..], m);
      assert Insert(x, rs) == [rs[0]] + Insert(x, rs[1..]);
    } else if x.matchScore == m {
      NoneWithMatch(rs, m);
      assert Insert(x, rs) == [x] + rs;
    } else {
      assert Insert(x, rs) == [x] + rs;
    }
  }

  /** A sorted list whose head scores below `m` has no record scoring `m`. */
  lemma {:induction false} NoneWithMatch(rs: seq<ScoredCandidate>, m: int)
    requires SortedByMatch(rs) && rs != []
    ensures rs[0].matchScore < m ==> WithMatch(rs, m) == []
  {
    if |rs| > 1 {
      NoneWithMatch(rs[1..], m);
    }
  }

  /** The head of a list is the first record of its own score. */
  lemma HeadWithMatch(rs: seq<ScoredCandidate>)
    ensures rs != [] ==> WithMatch(rs, rs[0].matchScore) != [] && WithMatch(rs, rs[0].matchScore)[0] == rs[0]
  {
  }

  /** The sort orders by score, highest first, keeps every record, and keeps the
      relative order of records with equal scores. */
  lemma {:induction false} SortByMatchIsStableSort(rs: seq<ScoredCandidate>)
    ensures SortedByMatch(SortByMatch(rs))
    ensures multiset(SortByMatch(rs)) == multiset(rs)
    ensures forall m :: WithMatch(SortByMatch(rs), m) == WithMatch(rs, m)
  {
    if rs != [] {
      var init, last := rs[..|rs| - 1], rs[|rs| - 1];
      assert rs == init + [last];
      SortByMatchIsStableSort(init);
      InsertSorted(last, SortByMatch(init));
      InsertElements(last, SortByMatch(init));
      forall m ensures WithMatch(SortByMatch(rs), m) == WithMatch(rs, m) {
        InsertStable(last, SortByMatch(init), m);
        WithMatchAppend(init, [last], m);
      }
    }
  }

  /** Two sorted lists with the same records of each score start alike. */
  lemma SameHead(ys: seq<ScoredCandidate>, zs: seq<ScoredCandidate>)
    requires SortedByMatch(ys) && SortedByMatch(zs) && ys != []
    requires forall m :: WithMatch(ys, m) == WithMatch(zs, m)
    ensures zs != [] && zs[0] == ys[0]
  {
    var top := ys[0].matchScore;
    HeadWithMatch(ys);
    assert WithMatch(zs, top) != [];
    assert zs != [];
    HeadWithMatch(zs);
    NoneWithMatch(zs, top);
    NoneWithMatch(ys, zs[0].matchScore);
    assert zs[0].matchScore == top;
  }

  /** Dropping equal heads keeps the records of each score equal. */
  lemma SameTails(ys: seq<ScoredCandidate>, zs: seq<ScoredCandidate>)
    requires ys != [] && zs != [] && ys[0] == zs[0]
    requires forall m :: WithMatch(ys, m) == WithMatch(zs, m)
    ensures forall m :: WithMatch(ys[1..], m) == WithMatch(zs[1..], m)
  {
    forall m ensures WithMatch(ys[1..], m) == WithMatch(zs[1..], m) {
      if m == ys[0].matchScore {
        assert WithMatch(ys[1..], m) == WithMatch(ys, m)[1..];
        assert WithMatch(zs[1..], m) == WithMatch(zs, m)[1..];
      } else {
        assert WithMatch(ys[1..], m) == WithMatch(ys, m);
        assert WithMatch(zs[1..], m) == WithMatch(zs, m);
      }
    }
  }

  /** A sorted list is determined by its records of each score: so the stable
      sort is the only sorted arrangement that keeps ties in their order. */
  lemma {:induction false} SortedUnique(ys: seq<ScoredCandidate>, zs: seq<ScoredCandidate>)
    requires SortedByMatch(ys) && SortedByMatch(zs)
    requires forall m :: WithMatch(ys, m) == WithMatch(zs, m)
    ensures ys == zs
    decreases |ys|
  {
    if ys == [] {
      HeadWithMatch(zs);
    } else {
      SameHead(ys, zs);
      SameTails(ys, zs);
      SortedUnique(ys[1..], zs[1..]);
      assert ys == [ys[0]] + ys[1..] && zs == [zs[0]] + zs[1..];
    }
  }

  /** A list sorted by score, highest first, that keeps each score's records in
      their order in `rs` is the stable sort of `rs`. */
  lemma StableSortCharacterized(rs: seq<ScoredCandidate>, ys: seq<ScoredCandidate>)
    requires SortedByMatch(ys)
    requires forall m :: WithMatch(ys, m) == WithMatch(rs, m)
    ensures ys == SortByMatch(rs)
  {
    SortByMatchIsStableSort(rs);
    SortedUnique(ys, SortByMatch(rs));
  }

  // ---------------------------------------------------------------------------
  // Building the results

  /** The pool record behind a result record. */
  function Unscore(r: ScoredCandidate): Candidate
  {
    Candidate(r.name, r.skills, r.exp, r.location)
  }

  function Unscored(rs: seq<ScoredCandidate>): (cs: seq<Candidate>)
    ensures |cs| == |rs|
  {
    if rs == [] then [] else [Unscore(rs[0])] + Unscored(rs[1..])
  }

  lemma {:induction false} UnscoredAppend(a: seq<ScoredCandidate>, b: seq<ScoredCandidate>)
    ensures Unscored(a + b) == Unscored(a) + Unscored(b)
  {
    if a != [] {
      assert (a + b)[1..] == a[1..] + b;
      UnscoredAppend(a[1..], b);
    } else {
      assert a + b == b;
    }
  }

  /** Sorting neither adds nor loses pool records. */
  lemma {:induction false} SortKeepsCandidates(rs: seq<ScoredCandidate>)
    ensures multiset(Unscored(SortByMatch(rs))) == multiset(Unscored(rs))
  {
    if rs != [] {
      var init, last := rs[..|rs| - 1], rs[|rs| - 1];
      assert rs == init + [last];
      SortKeepsCandidates(init);
      InsertKeepsCandidates(last, SortByMatch(init));
      UnscoredAppend(init, [last]);
    }
  }

  lemma {:induction false} InsertKeepsCandidates(x: ScoredCandidate, rs: seq<ScoredCandidate>)
    ensures multiset(Unscored(Insert(x, rs))) == multiset(Unscored(rs)) + multiset{Unscore(x)}
  {
    if rs != [] && rs[0].matchScore >= x.matchScore {
      InsertKeepsCandidates(x, rs[1..]);
      assert Unscored(Insert(x, rs)) == [Unscore(rs[0])] + Unscored(Insert(x, rs[1..]));
      assert Unscored(rs) == [Unscore(rs[0])] + Unscored(rs[1..]);
    } else if rs != [] {
      assert Unscored(Insert(x, rs)) == [Unscore(x)] + Unscored(rs);
    }
  }

  /** The result record of a scored pool record: its fields and `match`. */
  function WithScore(c: Candidate, matchScore: int): ScoredCandidate
  {
    ScoredCandidate(c.name, c.skills, c.exp, c.location, matchScore)
  }

  /** The `results` list before sorting: the `i`-th chosen record scored with the
      `i`-th noise draw. */
  function ScoreEach(chosen: seq<Candidate>, keywords: seq<string>, role: Option<string>, location: Option<string>,
                     noise: seq<int>): (rs: seq<ScoredCandidate>)
    requires |noise| >= |chosen| && forall i :: 0 <= i < |noise| ==> -3 <= noise[i] <= 3
    ensures |rs| == |chosen|
  {
    seq(|chosen|, i requires 0 <= i < |chosen| => WithScore(chosen[i], Score(chosen[i], keywords, role, location, noise[i])))
  }

  /** Scoring copies each record unchanged and adds a score in [0, 100]. */
  lemma {:induction false} ScoreEachKeepsRecords(chosen: seq<Candidate>, keywords: seq<string>, role: Option<string>,
                                                 location: Option<string>, noise: seq<int>)
    requires |noise| >= |chosen| && forall i :: 0 <= i < |noise| ==> -3 <= noise[i] <= 3
    ensures Unscored(ScoreEach(chosen, keywords, role, location, noise)) == chosen
    ensures forall r :: r in ScoreEach(chosen, keywords, role, location, noise) ==> 0 <= r.matchScore <= 100
    decreases |chosen|
  {
    var rs := ScoreEach(chosen, keywords, role, location, noise);
    if chosen != [] {
      ScoreEachKeepsRecords(chosen[1..], keywords, role, location, noise[1..]);
      assert rs[1..] == ScoreEach(chosen[1..], keywords, role, location, noise[1..]);
      assert chosen == [chosen[0]] + chosen[1..];
    }
  }

  // ---------------------------------------------------------------------------
  // Shuffling: `random.shuffle`, CPython's Fisher-Yates pass

  /** Draws a shuffle of `n` records may make: at position `i` an index in [0, i]. */
  predicate ValidDraws(draws: seq<int>, n: int)
  {
    |draws| == n && forall i :: 0 <= i < n ==> 0 <= draws[i] <= i
  }

  function Swap(s: seq<Candidate>, i: int, j: int): (r: seq<Candidate>)
    requires 0 <= i < |s| && 0 <= j < |s|
    ensures |r| == |s|
  {
    s[i := s[j]][j := s[i]]
  }

  /** The pass from position `i` down to 1: swap position `i` with its draw. */
  function ShuffleDown(s: seq<Candidate>, draws: seq<int>, i: int): (r: seq<Candidate>)
    requires ValidDraws(draws, |s|) && i < |s|
    ensures |r| == |s|
    decreases i
  {
    if i <= 0 then s else ShuffleDown(Swap(s, i, draws[i]), draws, i - 1)
  }

  /** Every swap of the pass only moves records around. */
  lemma {:induction false} ShuffleDownPermutes(s: seq<Candidate>, draws: seq<int>, i: int)
    requires ValidDraws(draws, |s|) && i < |s|
    ensures multiset(ShuffleDown(s, draws, i)) == multiset(s)
    decreases i
  {
    if i > 0 {
      var t := Swap(s, i, draws[i]);
      assert multiset(t) == multiset(s);
      ShuffleDownPermutes(t, draws, i - 1);
    }
  }

  /** The list after `random.shuffle` with these draws. */
  function Shuffled(s: seq<Candidate>, draws: seq<int>): (r: seq<Candidate>)
    requires ValidDraws(draws, |s|)
    ensures |r| == |s|
    ensures multiset(r) == multiset(s)
  {
    ShuffleDownPermutes(s, draws, |s| - 1);
    ShuffleDown(s, draws, |s| - 1)
  }

  /** The shuffle of the copied pool, in place, with its random draws given as `draws`. */
  method Shuffle(chosen: array<Candidate>, draws: seq<int>)
    requires ValidDraws(draws, chosen.Length)
    modifies chosen
    ensures chosen[..] == Shuffled(old(chosen[..]), draws)
  {
    var i := chosen.Length - 1;
    while i > 0
      invariant -1 <= i < chosen.Length
      invariant i == -1 ==> chosen.Length == 0
      invariant ShuffleDown(chosen[..], draws, i) == Shuffled(old(chosen[..]), draws)
      decreases i
    {
      var j := draws[i];
      ghost var before := chosen[..];
      chosen[i], chosen[j] := chosen[j], chosen[i];
      assert chosen[..] == Swap(before, i, j);
      i := i - 1;
    }
  }

  // ---------------------------------------------------------------------------
  // `fetch_mock_candidates`

  /** The end of the Python slice `[:n]` of a list of length `len`. */
  function SliceEnd(n: int, len: nat): (e: nat)
    ensures e <= len
    ensures 0 <= n <= len ==> e == n
    ensures n > len ==> e == len
    ensures n < 0 ==> e == if len + n > 0 then len + n else 0
  {
    if n >= 0 then Min(n, len) else if len + n > 0 then len + n else 0
  }

  /** The keyword list, with a missing list read as empty. */
  function KeywordsOrEmpty(keywords: Option<seq<string>>): (kw: seq<string>)
    ensures kw == [] <==> keywords.None? || keywords.value == []
  {
    if keywords.Some? then keywords.value else []
  }

  /** The records that are scored: the first `[:n]` of the shuffled copy. */
  function Chosen(pool: seq<Candidate>, draws: seq<int>, n: int): (cs: seq<Candidate>)
    requires ValidDraws(draws, |pool|)
    ensures |cs| == SliceEnd(n, |pool|)
    ensures multiset(cs) <= multiset(pool)
  {
    var shuffled := Shuffled(pool, draws);
    ShuffleDownPermutes(pool, draws, |pool| - 1);
    var cs := shuffled[..SliceEnd(n, |pool|)];
    assert shuffled == cs + shuffled[SliceEnd(n, |pool|)..];
    cs
  }

  /** The scoring loop: one result record per chosen record, in order. */
  method ScoreAll(chosen: seq<Candidate>, keywords: seq<string>, role: Option<string>, location: Option<string>,
                  noise: seq<int>)
    returns (results: seq<ScoredCandidate>)
    requires |noise| >= |chosen| && forall i :: 0 <= i < |noise| ==> -3 <= noise[i] <= 3
    ensures results == ScoreEach(chosen, keywords, role, location, noise)
  {
    results := [];
    for i := 0 to |chosen|
      invariant results == ScoreEach(chosen[..i], keywords, role, location, noise)
    {
      var sc := Score(chosen[i], keywords, role, location, noise[i]);
      results := results + [WithScore(chosen[i], sc)];
    }
    assert chosen[..|chosen|] == chosen;
  }

  /** `fetch_mock_candidates(n, keywords, role, location)` over `pool`, with the
      shuffle's draws and each scored record's noise as parameters. */
  method FetchMockCandidates(pool: seq<Candidate>, n: int, keywords: Option<seq<string>>, role: Option<string>,
                             location: Option<string>, draws: seq<int>, noise: seq<int>)
    returns (results: seq<ScoredCandidate>)
    requires ValidDraws(draws, |pool|)
    requires |noise| == SliceEnd(n, |pool|) && forall i :: 0 <= i < |noise| ==> -3 <= noise[i] <= 3
    ensures results == SortByMatch(ScoreEach(Chosen(pool, draws, n), KeywordsOrEmpty(keywords), role, location, noise))
    ensures |results| == SliceEnd(n, |pool|)
    ensures SortedByMatch(results)
    ensures multiset(Unscored(results)) <= multiset(pool)
    ensures forall r :: r in results ==> 0 <= r.matchScore <= 100
  {
    var copy := new Candidate[|pool|](i requires 0 <= i < |pool| => pool[i]);
    assert copy[..] == pool;
    Shuffle(copy, draws);
    var chosen := copy[..SliceEnd(n, copy.Length)];
    var kw := KeywordsOrEmpty(keywords);
    results := ScoreAll(chosen, kw, role, location, noise);
    assert chosen == Chosen(pool, draws, n);
    var scored := results;
    assert scored == ScoreEach(Chosen(pool, draws, n), KeywordsOrEmpty(keywords), role, location, noise);
    results := SortByMatch(results);
    SortByMatchIsStableSort(scored);
    SortKeepsCandidates(scored);
    ScoreEachKeepsRecords(chosen, kw, role, location, noise);
    assert forall r :: r in results ==> r in multiset(scored);
  }
}
