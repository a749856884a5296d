/** The per-house score record and the history of chosen houses it tallies. */
module Scores {
  import opened QuizData

  /** The `scores` state, a `Record<House, number>` with one entry per house. */
  datatype Tally = Tally(gryffindor: nat, hufflepuff: nat, ravenclaw: nat, slytherin: nat)

  /** `scores[h]`. */
  function Score(m: Tally, h: House): nat {
    match h
    case Gryffindor => m.gryffindor
    case Hufflepuff => m.hufflepuff
    case Ravenclaw => m.ravenclaw
    case Slytherin => m.slytherin
  }

  /** The initial record, and the one `retake` stores. */
  const Zero: Tally := Tally(0, 0, 0, 0)

  /** How often h occurs in the history. */
  function Count(s: seq<House>, h: House): (r: nat)
    ensures r <= |s|
    decreases |s|
  {
    if s == [] then 0
    else Count(s[..|s| - 1], h) + (if s[|s| - 1] == h then 1 else 0)
  }

  /** The sum of the four scores. */
  function Sum(m: Tally): nat {
    m.gryffindor + m.hufflepuff + m.ravenclaw + m.slytherin
  }

  /** m holds exactly the number of times each house was chosen in s. */
  predicate Tallies(m: Tally, s: seq<House>) {
    forall h: House :: Score(m, h) == Count(s, h)
  }

  /** `{...prev, [h]: prev[h] + 1}`: one more point for h, the same score for
      every other house. */
  function Bump(m: Tally, h: House): (r: Tally)
    ensures Score(r, h) == Score(m, h) + 1
    ensures forall g: House :: g != h ==> Score(r, g) == Score(m, g)
  {
    match h
    case Gryffindor => m.(gryffindor := m.gryffindor + 1)
    case Hufflepuff => m.(hufflepuff := m.hufflepuff + 1)
    case Ravenclaw => m.(ravenclaw := m.ravenclaw + 1)
    case Slytherin => m.(slytherin := m.slytherin + 1)
  }

  /** Appending h to the history counts h once more and nothing else. */
  lemma CountAppend(s: seq<House>, x: House, h: House)
    ensures Count(s + [x], h) == Count(s, h) + (if x == h then 1 else 0)
  {
    assert (s + [x])[..|s|] == s;
  }

  /** The zero record tallies the empty history. */
  lemma ZeroTalliesEmpty()
    ensures Tallies(Zero, [])
  {
  }

  /** Bumping x while appending x to the history keeps the record a tally of
      the history. */
  lemma BumpKeepsTally(m: Tally, s: seq<House>, x: House)
    requires Tallies(m, s)
    ensures Tallies(Bump(m, x), s + [x])
  {
    forall h: House ensures Score(Bump(m, x), h) == Count(s + [x], h) {
      CountAppend(s, x, h);
    }
  }

  /** Every entry of the history is counted for exactly one house. */
  lemma {:induction false} CountsAddUp(s: seq<House>)
    ensures Count(s, Gryffindor) + Count(s, Hufflepuff) + Count(s, Ravenclaw) + Count(s, Slytherin) == |s|
    decreases |s|
  {
    if s != [] {
      CountsAddUp(s[..|s| - 1]);
    }
  }

  /** The scores of a tally add up to the length of its history. */
  lemma TallySum(m: Tally, s: seq<House>)
    requires Tallies(m, s)
    ensures Sum(m) == |s|
  {
    assert Score(m, Gryffindor) == Count(s, Gryffindor);
    assert Score(m, Hufflepuff) == Count(s, Hufflepuff);
    assert Score(m, Ravenclaw) == Count(s, Ravenclaw);
    assert Score(m, Slytherin) == Count(s, Slytherin);
    CountsAddUp(s);
  }
}
