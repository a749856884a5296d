/** The resolution computed when the last question is answered: the maximum
    score, the houses that reach it, and the three-tier choice among them. */
module TieBreak {
  import opened QuizData
  import opened Scores

  function Max(a: nat, b: nat): nat {
    if a >= b then a else b
  }

  /** `Math.max(...Object.values(scores))`. */
  function MaxScore(m: Tally): (r: nat)
    ensures forall h: House :: Score(m, h) <= r
    ensures exists h: House :: Score(m, h) == r
  {
    assert Score(m, Gryffindor) == m.gryffindor && Score(m, Hufflepuff) == m.hufflepuff;
    assert Score(m, Ravenclaw) == m.ravenclaw && Score(m, Slytherin) == m.slytherin;
    Max(Max(m.gryffindor, m.hufflepuff), Max(m.ravenclaw, m.slytherin))
  }

  /** The houses of hs whose score is v, in the order of hs. */
  function WithScore(hs: seq<House>, m: Tally, v: nat): (r: seq<House>)
    ensures |r| <= |hs|
  {
    if hs == [] then []
    else (if Score(m, hs[0]) == v then [hs[0]] else []) + WithScore(hs[1..], m, v)
  }

  /** `Object.entries(scores).filter(([, s]) => s === maxScore).map(([h]) => h)`;
      the record always lists its keys in HouseOrder. */
  function TopHouses(m: Tally): (r: seq<House>)
    ensures |r| <= |HouseOrder|
  {
    WithScore(HouseOrder, m, MaxScore(m))
  }

  /** A house is kept exactly when it is in hs and has score v. */
  lemma {:induction false} WithScoreMembers(hs: seq<House>, m: Tally, v: nat, h: House)
    ensures h in WithScore(hs, m, v) <==> h in hs && Score(m, h) == v
  {
    if hs != [] {
      WithScoreMembers(hs[1..], m, v, h);
      assert hs == [hs[0]] + hs[1..];
    }
  }

  /** Filtering keeps the order of hs: positions increase, so nothing repeats. */
  lemma {:induction false} WithScoreOrdered(hs: seq<House>, m: Tally, v: nat)
    requires forall i, j :: 0 <= i < j < |hs| ==> Rank(hs[i]) < Rank(hs[j])
    ensures forall i, j :: 0 <= i < j < |WithScore(hs, m, v)| ==>
      Rank(WithScore(hs, m, v)[i]) < Rank(WithScore(hs, m, v)[j])
  {
    if hs != [] {
      WithScoreOrdered(hs[1..], m, v);
      var rest := WithScore(hs[1..], m, v);
      forall h | h in rest ensures Rank(hs[0]) < Rank(h) {
        WithScoreMembers(hs[1..], m, v, h);
      }
    }
  }

  /** A house is a top house exactly when its score is the maximum. */
  lemma TopHousesMembers(m: Tally, h: House)
    ensures h in TopHouses(m) <==> Score(m, h) == MaxScore(m)
  {
    WithScoreMembers(HouseOrder, m, MaxScore(m), h);
  }

  /** There is always a top house, and the top houses come in HouseOrder
      without repetition. */
  lemma TopHousesShape(m: Tally)
    ensures |TopHouses(m)| >= 1
    ensures forall i, j :: 0 <= i < j < |TopHouses(m)| ==>
      Rank(TopHouses(m)[i]) < Rank(TopHouses(m)[j])
  {
    var h :| Score(m, h) == MaxScore(m);
    TopHousesMembers(m, h);
    WithScoreOrdered(HouseOrder, m, MaxScore(m));
  }

  /** The filter written out over the four houses. */
  lemma TopHousesUnfold(m: Tally)
    ensures var v := MaxScore(m);
      TopHouses(m) ==
        (if Score(m, Gryffindor) == v then [Gryffindor] else []) +
        (if Score(m, Hufflepuff) == v then [Hufflepuff] else []) +
        (if Score(m, Ravenclaw) == v then [Ravenclaw] else []) +
        (if Score(m, Slytherin) == v then [Slytherin] else [])
  {
    var v := MaxScore(m);
    var hs3, hs2, hs1 := [Slytherin], [Ravenclaw, Slytherin], [Hufflepuff, Ravenclaw, Slytherin];
    assert hs3[1..] == [] && hs2[1..] == hs3 && hs1[1..] == hs2 && HouseOrder[1..] == hs1;
    assert WithScore(hs3, m, v) == (if Score(m, Slytherin) == v then [Slytherin] else []) + [];
    assert WithScore(hs2, m, v) == (if Score(m, Ravenclaw) == v then [Ravenclaw] else []) + WithScore(hs3, m, v);
    assert WithScore(hs1, m, v) == (if Score(m, Hufflepuff) == v then [Hufflepuff] else []) + WithScore(hs2, m, v);
  }

  /** There is a single top house exactly when one house beats all others. */
  lemma SingleTopHouse(m: Tally, h: House)
    ensures TopHouses(m) == [h] <==> forall g: House :: g != h ==> Score(m, g) < Score(m, h)
  {
    TopHousesMembers(m, h);
    if TopHouses(m) == [h] {
      forall g: House | g != h ensures Score(m, g) < Score(m, h) {
        TopHousesMembers(m, g);
      }
    }
    if forall g: House :: g != h ==> Score(m, g) < Score(m, h) {
      TopHousesUnfold(m);
      var g :| Score(m, g) == MaxScore(m);
      assert g == h;
      match h
      case Gryffindor =>
      case Hufflepuff =>
      case Ravenclaw =>
      case Slytherin =>
    }
  }

  /** The last entry of the history, if any (`selected[selected.length - 1]`
      is undefined on an empty history and matches no house). */
  function Last(history: seq<House>): (r: Option<House>)
    ensures r.Some? <==> history != []
    ensures r.Some? ==> r.value in history
  {
    if history == [] then None else Some(history[|history| - 1])
  }

  /** The three tiers: the single top house; otherwise the last chosen house
      if it is a top house; otherwise the top house at the random position
      `pick`, which stands for `Math.floor(Math.random() * topHouses.length)`. */
  function Resolve(m: Tally, history: seq<House>, pick: nat): (r: House)
    requires pick < |TopHouses(m)|
    ensures r in TopHouses(m)
  {
    var top := TopHouses(m);
    if |top| == 1 then top[0]
    else if Last(history).Some? && Last(history).value in top then Last(history).value
    else top[pick]
  }

  /** Whatever the tier, the resolved house has the maximum score. */
  lemma ResolveHasMaxScore(m: Tally, history: seq<House>, pick: nat)
    requires pick < |TopHouses(m)|
    ensures Score(m, Resolve(m, history, pick)) == MaxScore(m)
    ensures forall h: House :: Score(m, h) <= Score(m, Resolve(m, history, pick))
  {
    TopHousesMembers(m, Resolve(m, history, pick));
  }

  /** A house that beats every other is the result, whatever the history and
      the random pick. */
  lemma ResolveUniqueMax(m: Tally, history: seq<House>, pick: nat, h: House)
    requires pick < |TopHouses(m)|
    requires forall g: House :: g != h ==> Score(m, g) < Score(m, h)
    ensures Resolve(m, history, pick) == h
  {
    SingleTopHouse(m, h);
  }

  /** In a tie, the last chosen house wins when it has the maximum score. */
  lemma ResolveTieFavoursLast(m: Tally, history: seq<House>, pick: nat)
    requires pick < |TopHouses(m)|
    requires |TopHouses(m)| > 1
    requires history != [] && Score(m, history[|history| - 1]) == MaxScore(m)
    ensures Resolve(m, history, pick) == history[|history| - 1]
  {
    TopHousesMembers(m, history[|history| - 1]);
  }

  /** In a tie that the last chosen house does not share (or with no history
      at all), the random pick decides among the top houses. */
  lemma ResolveTieFallback(m: Tally, history: seq<House>, pick: nat)
    requires pick < |TopHouses(m)|
    requires |TopHouses(m)| > 1
    requires history == [] || Score(m, history[|history| - 1]) < MaxScore(m)
    ensures Resolve(m, history, pick) == TopHouses(m)[pick]
  {
    if history != [] {
      TopHousesMembers(m, history[|history| - 1]);
    }
  }

  /** The session resolves on the record as it stood before the final
      click, m, while it stores Bump(m, x). The stored score of the result is
      then at most one point below the stored maximum. */
  lemma ResolveWithinOneOfFinalMax(m: Tally, x: House, history: seq<House>, pick: nat)
    requires pick < |TopHouses(m)|
    ensures Score(Bump(m, x), Resolve(m, history, pick)) + 1 >= MaxScore(Bump(m, x))
  {
    var r := Resolve(m, history, pick);
    ResolveHasMaxScore(m, history, pick);
    var f := Bump(m, x);
    var g :| Score(f, g) == MaxScore(f);
    assert Score(f, g) <= Score(m, g) + 1 <= Score(m, r) + 1 <= Score(f, r) + 1;
  }

  /** The four answers Gryffindor, Hufflepuff, Ravenclaw, Slytherin leave one
      point per house. */
  lemma FourAnswersTally()
    ensures Tallies(Tally(1, 1, 1, 1), [Gryffindor, Hufflepuff, Ravenclaw, Slytherin])
  {
    ZeroTalliesEmpty();
    BumpKeepsTally(Zero, [], Gryffindor);
    BumpKeepsTally(Tally(1, 0, 0, 0), [Gryffindor], Hufflepuff);
    BumpKeepsTally(Tally(1, 1, 0, 0), [Gryffindor, Hufflepuff], Ravenclaw);
    BumpKeepsTally(Tally(1, 1, 1, 0), [Gryffindor, Hufflepuff, Ravenclaw], Slytherin);
    assert [] + [Gryffindor] == [Gryffindor];
    assert [Gryffindor] + [Hufflepuff] == [Gryffindor, Hufflepuff];
    assert [Gryffindor, Hufflepuff] + [Ravenclaw] == [Gryffindor, Hufflepuff, Ravenclaw];
    assert [Gryffindor, Hufflepuff, Ravenclaw] + [Slytherin] == [Gryffindor, Hufflepuff, Ravenclaw, Slytherin];
  }

  /** A four-way tie whose history ends with h resolves to h. */
  lemma FourWayTieResolvesToLast(history: seq<House>, h: House)
    requires history != [] && history[|history| - 1] == h
    ensures |TopHouses(Tally(1, 1, 1, 1))| == 4
    ensures forall pick :: 0 <= pick < 4 ==> Resolve(Tally(1, 1, 1, 1), history, pick) == h
  {
    var m := Tally(1, 1, 1, 1);
    TopHousesUnfold(m);
    TopHousesMembers(m, h);
  }

  /** One more Gryffindor point after a four-way tie leaves Gryffindor alone
      on top. */
  lemma GryffindorAloneAfterTie()
    ensures TopHouses(Bump(Tally(1, 1, 1, 1), Gryffindor)) == [Gryffindor]
  {
    TopHousesUnfold(Tally(2, 1, 1, 1));
  }

  /** The one point can matter: after Gryffindor, Hufflepuff, Ravenclaw and
      Slytherin, a final Gryffindor answer leaves Gryffindor alone on top of
      the stored record, yet the resolution sees a four-way tie and the
      previous answer, Slytherin, and returns Slytherin. */
  lemma StaleSnapshotExample()
    ensures var before := [Gryffindor, Hufflepuff, Ravenclaw, Slytherin];
      var m := Tally(1, 1, 1, 1);
      Tallies(m, before) &&
      |TopHouses(m)| == 4 &&
      (forall pick :: 0 <= pick < 4 ==> Resolve(m, before, pick) == Slytherin) &&
      Tallies(Bump(m, Gryffindor), before + [Gryffindor]) &&
      TopHouses(Bump(m, Gryffindor)) == [Gryffindor]
  {
    var before := [Gryffindor, Hufflepuff, Ravenclaw, Slytherin];
    FourAnswersTally();
    BumpKeepsTally(Tally(1, 1, 1, 1), before, Gryffindor);
    FourWayTieResolvesToLast(before, Slytherin);
    GryffindorAloneAfterTie();
  }
}
