/**
 The search engine: every command is scored against the lowercased query on
 its description (weight 3), its key sequence (weight 2) and its category
 label (weight 1); a command that matches on any of them is kept with its best
 weighted score, and the kept commands are sorted by score, best first, with
 a stable sort. The fuzzy matcher itself is a parameter of the model.
 */
module Search {
  import opened Wrappers
  import opened Ascii
  import opened Commands

  /**
   `SkimMatcherV2::fuzzy_match(haystack, pattern)`: a score when the pattern
   matches the haystack, `None` otherwise.
   */
  type Matcher = (string, string) -> Option<int>

  /** A search result: the position of the command in the catalogue and its score. */
  datatype Hit = Hit(index: nat, score: int)

  // ---------------------------------------------------------------------------
  // Scoring one command
  // ---------------------------------------------------------------------------

  /** The fuzzy score of one lowercased field, multiplied by the field's weight. */
  function Weighted(fuzzy: Matcher, field: string, pattern: string, weight: int): Option<int>
  {
    match fuzzy(Lower(field), pattern)
    case Some(score) => Some(score * weight)
    case None => None
  }

  /** The three weighted field scores of a command, in the order they are tried. */
  function Candidates(cmd: Command, pattern: string, fuzzy: Matcher): seq<Option<int>>
  {
    [ Weighted(fuzzy, cmd.description, pattern, 3),
      Weighted(fuzzy, cmd.keys, pattern, 2),
      Weighted(fuzzy, cmd.category.AsStr(), pattern, 1) ]
  }

  /** `best_score = Some(best_score.map_or(w, |s| s.max(w)))` */
  function Improve(best: Option<int>, w: int): (r: Option<int>)
    ensures r.Some? && w <= r.value
    ensures best.Some? ==> best.value <= r.value
    ensures r.value == w || (best.Some? && r.value == best.value)
  {
    match best
    case None => Some(w)
    case Some(s) => Some(if s >= w then s else w)
  }

  /** Folds one optional field score into the best score so far. */
  function Consider(best: Option<int>, candidate: Option<int>): Option<int>
  {
    match candidate
    case Some(w) => Improve(best, w)
    case None => best
  }

  /** The score a command is kept with: the fields tried in order, each improving the best so far. */
  function BestScore(cmd: Command, pattern: string, fuzzy: Matcher): Option<int>
  {
    var c := Candidates(cmd, pattern, fuzzy);
    Consider(Consider(Consider(None, c[0]), c[1]), c[2])
  }

  /**
   A command has a score exactly when one of its fields matches, and the score
   is the largest of the weighted scores of the fields that match.
   */
  lemma BestScoreIsMax(cmd: Command, pattern: string, fuzzy: Matcher)
    ensures var c := Candidates(cmd, pattern, fuzzy);
            BestScore(cmd, pattern, fuzzy).None? <==> forall k :: 0 <= k < |c| ==> c[k].None?
    ensures var c, r := Candidates(cmd, pattern, fuzzy), BestScore(cmd, pattern, fuzzy);
            r.Some? ==> && (exists k :: 0 <= k < |c| && c[k] == r)
                        && (forall k :: 0 <= k < |c| && c[k].Some? ==> c[k].value <= r.value)
  {
  }

  // ---------------------------------------------------------------------------
  // The kept commands and their order
  // ---------------------------------------------------------------------------

  /** The best score of every command, in catalogue order. */
  function Scores(commands: seq<Command>, pattern: string, fuzzy: Matcher): seq<Option<int>>
  {
    seq(|commands|, i requires 0 <= i < |commands| => BestScore(commands[i], pattern, fuzzy))
  }

  /** The hits kept from a list of optional scores: one per score present, at its position, in order. */
  function Kept(scores: seq<Option<int>>): seq<Hit>
    decreases |scores|
  {
    if scores == [] then []
    else
      var n := |scores| - 1;
      match scores[n]
      case Some(score) => Kept(scores[..n]) + [Hit(n, score)]
      case None => Kept(scores[..n])
  }

  /** The `for cmd in commands` loop: every command with a score, in catalogue order. */
  function Scored(commands: seq<Command>, pattern: string, fuzzy: Matcher): seq<Hit>
  {
    Kept(Scores(commands, pattern, fuzzy))
  }

  /** Indices strictly increasing along the sequence. */
  predicate IncreasingIndices(hits: seq<Hit>)
  {
    forall i, j :: 0 <= i < j < |hits| ==> hits[i].index < hits[j].index
  }

  /** `a` comes before `b`: a better score, or the same score and an earlier catalogue position. */
  predicate Before(a: Hit, b: Hit)
  {
    a.score > b.score || (a.score == b.score && a.index < b.index)
  }

  /** Best score first; among equal scores, catalogue order. */
  predicate Ordered(hits: seq<Hit>)
  {
    forall i, j :: 0 <= i < j < |hits| ==> Before(hits[i], hits[j])
  }

  /** One step of a stable sort by descending score: `h` goes after every element scoring at least as much. */
  function Insert(sorted: seq<Hit>, h: Hit): (r: seq<Hit>)
    ensures |r| == |sorted| + 1
    decreases |sorted|
  {
    if sorted == [] || sorted[|sorted| - 1].score >= h.score then sorted + [h]
    else Insert(sorted[..|sorted| - 1], h) + [sorted[|sorted| - 1]]
  }

  /** `results.sort_by(|a, b| b.1.cmp(&a.1))`: a stable sort, best score first. */
  function SortDesc(hits: seq<Hit>): (r: seq<Hit>)
    ensures |r| == |hits|
    decreases |hits|
  {
    if hits == [] then [] else Insert(SortDesc(hits[..|hits| - 1]), hits[|hits| - 1])
  }

  /**
   `search`: every command with score 0 in catalogue order when the query is
   empty; otherwise the commands that match the lowercased query, best first.
   */
  function Rank(commands: seq<Command>, query: string, fuzzy: Matcher): seq<Hit>
  {
    if query == [] then seq(|commands|, i requires 0 <= i < |commands| => Hit(i, 0))
    else SortDesc(Scored(commands, Lower(query), fuzzy))
  }

  // ---------------------------------------------------------------------------
  // The method
  // ---------------------------------------------------------------------------

  /** The scoring of one command, field after field. */
  method ScoreCommand(cmd: Command, queryLower: string, fuzzy: Matcher) returns (bestScore: Option<int>)
    ensures bestScore == BestScore(cmd, queryLower, fuzzy)
  {
    bestScore := None;
    var description := fuzzy(Lower(cmd.description), queryLower);
    if description.Some? {
      var weighted := description.value * 3;
      bestScore := Improve(bestScore, weighted);
    }
    var keys := fuzzy(Lower(cmd.keys), queryLower);
    if keys.Some? {
      var weighted := keys.value * 2;
      bestScore := Improve(bestScore, weighted);
    }
    var category := fuzzy(Lower(cmd.category.AsStr()), queryLower);
    if category.Some? {
      var score := category.value;
      bestScore := Improve(bestScore, score);
    }
  }

  /** `SearchEngine::search` */
  method Search(commands: seq<Command>, query: string, fuzzy: Matcher) returns (results: seq<Hit>)
    ensures results == Rank(commands, query, fuzzy)
  {
    if query == [] {
      return seq(|commands|, i requires 0 <= i < |commands| => Hit(i, 0));
    }
    var queryLower := Lower(query);
    ghost var scores := Scores(commands, queryLower, fuzzy);
    results := [];
    var i := 0;
    while i < |commands|
      invariant 0 <= i <= |commands|
      invariant results == Kept(scores[..i])
    {
      var bestScore := ScoreCommand(commands[i], queryLower, fuzzy);
      assert scores[..i + 1][..i] == scores[..i] && scores[..i + 1][i] == bestScore;
      if bestScore.Some? {
        results := results + [Hit(i, bestScore.value)];
      }
      i := i + 1;
    }
    assert scores[..i] == scores;
    results := SortDesc(results);
  }

  // ---------------------------------------------------------------------------
  // What the order promises
  // ---------------------------------------------------------------------------

  lemma {:induction false} InsertPermutes(sorted: seq<Hit>, h: Hit)
    ensures multiset(Insert(sorted, h)) == multiset(sorted) + multiset{h}
    decreases |sorted|
  {
    if !(sorted == [] || sorted[|sorted| - 1].score >= h.score) {
      var init, last := sorted[..|sorted| - 1], sorted[|sorted| - 1];
      InsertPermutes(init, h);
      assert sorted == init + [last];
    }
  }

  /** Inserting a hit whose index exceeds every index present keeps the order. */
  lemma {:induction false} InsertOrdered(sorted: seq<Hit>, h: Hit)
    requires Ordered(sorted)
    requires forall x :: x in sorted ==> x.index < h.index
    ensures Ordered(Insert(sorted, h))
    decreases |sorted|
  {
    var n := |sorted|;
    if n == 0 || sorted[n - 1].score >= h.score {
      OrderedSnoc(sorted, h);
    } else {
      var init, last := sorted[..n - 1], sorted[n - 1];
      assert forall x :: x in init ==> x in sorted;
      assert forall k :: 0 <= k < n - 1 ==> Before(init[k], last);
      InsertOrdered(init, h);
      InsertKeepsBefore(init, h, last);
      OrderedSnoc(Insert(init, h), last);
    }
  }

  /** Appending an element that every element comes before keeps the order. */
  lemma OrderedSnoc(hits: seq<Hit>, x: Hit)
    requires Ordered(hits)
    requires forall y :: y in hits ==> Before(y, x)
    ensures Ordered(hits + [x])
  {
    var r := hits + [x];
    forall i, j | 0 <= i < j < |r|
      ensures Before(r[i], r[j])
    {
      assert r[i] == hits[i];
      if j == |hits| {
        assert hits[i] in hits;
      } else {
        assert r[j] == hits[j];
      }
    }
  }

  /** If everything in `sorted`, and `h`, comes before `last`, so does everything in the insertion. */
  lemma InsertKeepsBefore(sorted: seq<Hit>, h: Hit, last: Hit)
    requires forall k :: 0 <= k < |sorted| ==> Before(sorted[k], last)
    requires Before(h, last)
    ensures forall y :: y in Insert(sorted, h) ==> Before(y, last)
  {
    InsertPermutes(sorted, h);
    forall y | y in Insert(sorted, h)
      ensures Before(y, last)
    {
      assert y in multiset(Insert(sorted, h));
      if y != h {
        assert y in multiset(sorted);
        var k :| 0 <= k < |sorted| && sorted[k] == y;
      }
    }
  }

  /** The sort keeps exactly the hits it is given. */
  lemma {:induction false} SortPermutes(hits: seq<Hit>)
    ensures multiset(SortDesc(hits)) == multiset(hits)
    decreases |hits|
  {
    if hits != [] {
      var init, last := hits[..|hits| - 1], hits[|hits| - 1];
      SortPermutes(init);
      InsertPermutes(SortDesc(init), last);
      assert hits == init + [last];
    }
  }

  /** Sorting hits listed in catalogue order puts the best first and breaks ties by catalogue order. */
  lemma {:induction false} SortOrdered(hits: seq<Hit>)
    requires IncreasingIndices(hits)
    ensures Ordered(SortDesc(hits))
    decreases |hits|
  {
    if hits != [] {
      var init, last := hits[..|hits| - 1], hits[|hits| - 1];
      SortOrdered(init);
      SortPermutes(init);
      forall x | x in SortDesc(init)
        ensures x.index < last.index
      {
        assert x in multiset(init);
        var k :| 0 <= k < |init| && init[k] == x;
        assert hits[k] == x;
      }
      InsertOrdered(SortDesc(init), last);
    }
  }

  /** The loop keeps hits in catalogue order, never more than one per command. */
  lemma ScoredIncreasing(commands: seq<Command>, pattern: string, fuzzy: Matcher)
    ensures IncreasingIndices(Scored(commands, pattern, fuzzy))
    ensures forall h :: h in Scored(commands, pattern, fuzzy) ==> h.index < |commands|
    ensures |Scored(commands, pattern, fuzzy)| <= |commands|
  {
    KeptIncreasing(Scores(commands, pattern, fuzzy));
  }

  /** Kept hits come in position order, each at a position of the list, at most one per position. */
  lemma {:induction false} KeptIncreasing(scores: seq<Option<int>>)
    ensures IncreasingIndices(Kept(scores))
    ensures forall h :: h in Kept(scores) ==> h.index < |scores|
    ensures |Kept(scores)| <= |scores|
    decreases |scores|
  {
    if scores != [] {
      var n := |scores| - 1;
      var init := Kept(scores[..n]);
      KeptIncreasing(scores[..n]);
      match scores[n]
      case Some(score) =>
        IncreasingSnoc(init, Hit(n, score));
      case None =>
    }
  }

  /** Appending a hit with an index above every index present keeps the indices increasing. */
  lemma IncreasingSnoc(hits: seq<Hit>, h: Hit)
    requires IncreasingIndices(hits)
    requires forall x :: x in hits ==> x.index < h.index
    ensures IncreasingIndices(hits + [h])
  {
    var r := hits + [h];
    forall i, j | 0 <= i < j < |r|
      ensures r[i].index < r[j].index
    {
      assert r[i] == hits[i];
      if j < |hits| {
        assert r[j] == hits[j];
      } else {
        assert hits[i] in hits;
      }
    }
  }

  /** Every kept hit carries the best score of its command. */
  lemma ScoredSound(commands: seq<Command>, pattern: string, fuzzy: Matcher)
    ensures forall h :: h in Scored(commands, pattern, fuzzy) ==>
              h.index < |commands| && BestScore(commands[h.index], pattern, fuzzy) == Some(h.score)
  {
    KeptSound(Scores(commands, pattern, fuzzy));
  }

  /** Every kept hit carries the score at its position. */
  lemma {:induction false} KeptSound(scores: seq<Option<int>>)
    ensures forall h :: h in Kept(scores) ==> h.index < |scores| && scores[h.index] == Some(h.score)
    decreases |scores|
  {
    if scores != [] {
      var n := |scores| - 1;
      KeptSound(scores[..n]);
      assert forall i :: 0 <= i < n ==> scores[..n][i] == scores[i];
    }
  }

  /** Every command with a score is kept. */
  lemma ScoredComplete(commands: seq<Command>, pattern: string, fuzzy: Matcher)
    ensures forall i :: 0 <= i < |commands| && BestScore(commands[i], pattern, fuzzy).Some? ==>
              Hit(i, BestScore(commands[i], pattern, fuzzy).value) in Scored(commands, pattern, fuzzy)
  {
    var scores := Scores(commands, pattern, fuzzy);
    KeptComplete(scores);
    assert forall i :: 0 <= i < |commands| ==> scores[i] == BestScore(commands[i], pattern, fuzzy);
  }

  /** Every score present is kept, at its position. */
  lemma {:induction false} KeptComplete(scores: seq<Option<int>>)
    ensures forall i :: 0 <= i < |scores| && scores[i].Some? ==> Hit(i, scores[i].value) in Kept(scores)
    decreases |scores|
  {
    if scores != [] {
      var n := |scores| - 1;
      var init := Kept(scores[..n]);
      KeptComplete(scores[..n]);
      assert forall i :: 0 <= i < n ==> scores[..n][i] == scores[i];
      assert forall h :: h in init ==> h in Kept(scores);
    }
  }

  /** An element found at two positions occurs at least twice. */
  lemma CountAtTwo(r: seq<Hit>, i: nat, j: nat)
    requires i < j < |r|
    ensures r[i] == r[j] ==> multiset(r)[r[i]] >= 2
  {
    if r[i] == r[j] {
      assert r == r[..i] + [r[i]] + r[i + 1..j] + [r[j]] + r[j + 1..];
    }
  }

  /** In a sequence with strictly increasing indices a hit is identified by its index. */
  lemma IndexDetermines(s: seq<Hit>)
    requires IncreasingIndices(s)
    ensures forall a, b :: a in s && b in s && a.index == b.index ==> a == b
  {
  }

  /** A sequence in which nothing occurs twice holds distinct elements at distinct positions. */
  lemma NoRepeats(r: seq<Hit>)
    requires forall x :: multiset(r)[x] <= 1
    ensures forall i, j :: 0 <= i < j < |r| ==> r[i] != r[j]
  {
    forall i, j | 0 <= i < j < |r|
      ensures r[i] != r[j]
    {
      CountAtTwo(r, i, j);
    }
  }

  /** In a sequence with strictly increasing indices every hit occurs at most once. */
  lemma {:induction false} MultisetOfIncreasing(s: seq<Hit>, x: Hit)
    requires IncreasingIndices(s)
    ensures multiset(s)[x] <= 1
    decreases |s|
  {
    if s != [] {
      var init := s[..|s| - 1];
      assert s == init + [s[|s| - 1]];
      MultisetOfIncreasing(init, x);
      assert forall k :: 0 <= k < |init| ==> init[k].index < s[|s| - 1].index;
      assert s[|s| - 1] !in init;
    }
  }

  // ---------------------------------------------------------------------------
  // What `search` promises
  // ---------------------------------------------------------------------------

  /** With a non-empty query the results hold exactly the hits the loop keeps. */
  lemma RankMembers(commands: seq<Command>, query: string, fuzzy: Matcher)
    requires query != []
    ensures forall h :: h in Rank(commands, query, fuzzy) <==> h in Scored(commands, Lower(query), fuzzy)
  {
    var s := Scored(commands, Lower(query), fuzzy);
    var r := Rank(commands, query, fuzzy);
    SortPermutes(s);
    forall h
      ensures h in r <==> h in s
    {
      assert h in r <==> h in multiset(r);
      assert h in s <==> h in multiset(s);
    }
  }

  /**
   With a non-empty query a command is listed if and only if one of its
   fields matches, and then with its best weighted score.
   */
  lemma RankMatches(commands: seq<Command>, query: string, fuzzy: Matcher)
    requires query != []
    ensures forall h :: h in Rank(commands, query, fuzzy) ==>
              h.index < |commands| && BestScore(commands[h.index], Lower(query), fuzzy) == Some(h.score)
    ensures forall i :: 0 <= i < |commands| ==>
              ((exists h :: h in Rank(commands, query, fuzzy) && h.index == i) <==> BestScore(commands[i], Lower(query), fuzzy).Some?)
  {
    var pattern := Lower(query);
    var r := Rank(commands, query, fuzzy);
    RankMembers(commands, query, fuzzy);
    ScoredSound(commands, pattern, fuzzy);
    ScoredComplete(commands, pattern, fuzzy);
    forall i | 0 <= i < |commands| && BestScore(commands[i], pattern, fuzzy).Some?
      ensures exists h :: h in r && h.index == i
    {
      assert Hit(i, BestScore(commands[i], pattern, fuzzy).value) in r;
    }
  }

  /** No command is listed twice, and there are never more results than commands. */
  lemma RankDistinct(commands: seq<Command>, query: string, fuzzy: Matcher)
    ensures var r := Rank(commands, query, fuzzy);
            forall i, j :: 0 <= i < j < |r| ==> r[i].index != r[j].index
    ensures |Rank(commands, query, fuzzy)| <= |commands|
  {
    if query != [] {
      var s := Scored(commands, Lower(query), fuzzy);
      var r := Rank(commands, query, fuzzy);
      ScoredIncreasing(commands, Lower(query), fuzzy);
      SortPermutes(s);
      forall x
        ensures multiset(r)[x] <= 1
      {
        MultisetOfIncreasing(s, x);
      }
      NoRepeats(r);
      IndexDetermines(s);
      forall i, j | 0 <= i < j < |r|
        ensures r[i].index != r[j].index
      {
        assert r[i] in multiset(s) && r[j] in multiset(s);
        assert r[i] in s && r[j] in s;
      }
    }
  }

  /** The results come best first, equal scores in catalogue order, for every query. */
  lemma RankOrdered(commands: seq<Command>, query: string, fuzzy: Matcher)
    ensures Ordered(Rank(commands, query, fuzzy))
  {
    if query != [] {
      ScoredIncreasing(commands, Lower(query), fuzzy);
      SortOrdered(Scored(commands, Lower(query), fuzzy));
    }
  }

  /** An empty query lists every command once, in catalogue order, with score 0. */
  lemma RankEmptyQuery(commands: seq<Command>, fuzzy: Matcher)
    ensures var r := Rank(commands, [], fuzzy);
            |r| == |commands| && forall i :: 0 <= i < |r| ==> r[i].index == i && r[i].score == 0
  {
  }

  /** The query's case does not matter. */
  lemma RankIgnoresCase(commands: seq<Command>, query: string, fuzzy: Matcher)
    ensures Rank(commands, query, fuzzy) == Rank(commands, Lower(query), fuzzy)
  {
    LowerIsLowered(query);
  }

}
