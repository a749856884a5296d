/** The answer shuffle of the quiz's mount effect: a Fisher-Yates pass over a
    copy of each question's answers, and the map that applies it to the bank.
    The random choices are explicit: draw i stands for
    Math.floor(Math.random() * (i + 1)) and so lies in 0..i. */
module Shuffle {
  import opened QuizData

  /** One draw per position of an n-element array, draw i in 0..i. The loop
      makes no draw for i == 0; that entry is forced to 0. */
  predicate IsDraw(js: seq<nat>, n: nat) {
    |js| == n && forall i :: 0 <= i < n ==> js[i] <= i
  }

  /** `[copy[i], copy[j]] = [copy[j], copy[i]]` on a sequence. */
  function SwapAt<T>(s: seq<T>, i: nat, j: nat): (r: seq<T>)
    requires i < |s| && j < |s|
    ensures |r| == |s| && r[i] == s[j] && r[j] == s[i]
    ensures forall k :: 0 <= k < |s| && k != i && k != j ==> r[k] == s[k]
  {
    s[i := s[j]][j := s[i]]
  }

  /** The loop's steps i, i-1, ..., 1 applied to s: step k swaps position k
      with position js[k]. Nothing is left to do once i <= 0. */
  function Steps<T>(s: seq<T>, js: seq<nat>, i: int): (r: seq<T>)
    requires i < |s| && IsDraw(js, |s|)
    ensures |r| == |s|
    decreases i
  {
    if i <= 0 then s else Steps(SwapAt(s, i, js[i]), js, i - 1)
  }

  /** The whole shuffle: steps |s|-1 down to 1. */
  function FisherYates<T>(s: seq<T>, js: seq<nat>): (r: seq<T>)
    requires IsDraw(js, |s|)
    ensures |r| == |s|
  {
    Steps(s, js, |s| - 1)
  }

  predicate Distinct<T(==)>(s: seq<T>) {
    forall a, b :: 0 <= a < b < |s| ==> s[a] != s[b]
  }

  /** A swap neither adds nor loses elements. */
  lemma SwapPermutes<T>(s: seq<T>, i: nat, j: nat)
    requires i < |s| && j < |s|
    ensures multiset(SwapAt(s, i, j)) == multiset(s)
  {
    var t := s[i := s[j]];
    assert multiset(t) == multiset(s) - multiset{s[i]} + multiset{s[j]};
  }

  /** The steps permute their input. */
  lemma {:induction false} StepsPermute<T>(s: seq<T>, js: seq<nat>, i: int)
    requires i < |s| && IsDraw(js, |s|)
    ensures |Steps(s, js, i)| == |s|
    ensures multiset(Steps(s, js, i)) == multiset(s)
    decreases i
  {
    if i > 0 {
      SwapPermutes(s, i, js[i]);
      StepsPermute(SwapAt(s, i, js[i]), js, i - 1);
    }
  }

  /** The shuffle returns a permutation of its input. */
  lemma FisherYatesPermutes<T>(s: seq<T>, js: seq<nat>)
    requires IsDraw(js, |s|)
    ensures |FisherYates(s, js)| == |s|
    ensures multiset(FisherYates(s, js)) == multiset(s)
  {
    StepsPermute(s, js, |s| - 1);
  }

  /** Steps i..1 never touch a position above i: once step k has run,
      position k holds its final element. */
  lemma {:induction false} StepsKeepAbove<T>(s: seq<T>, js: seq<nat>, i: int, k: nat)
    requires i < k < |s| && IsDraw(js, |s|)
    ensures |Steps(s, js, i)| == |s| && Steps(s, js, i)[k] == s[k]
    decreases i
  {
    StepsPermute(s, js, i);
    if i > 0 {
      StepsKeepAbove(SwapAt(s, i, js[i]), js, i - 1, k);
    }
  }

  /** Steps i..1 read only the draws 0..i. */
  lemma {:induction false} StepsReadDrawsUpTo<T>(s: seq<T>, js: seq<nat>, js': seq<nat>, i: int)
    requires i < |s| && IsDraw(js, |s|) && IsDraw(js', |s|)
    requires forall k :: 0 <= k <= i ==> js[k] == js'[k]
    ensures Steps(s, js, i) == Steps(s, js', i)
    decreases i
  {
    if i > 0 {
      StepsReadDrawsUpTo(SwapAt(s, i, js[i]), js, js', i - 1);
    }
  }

  /** Two rearrangements of each other that agree above i are rearrangements
      of each other up to i. */
  lemma PrefixMultiset<T>(s: seq<T>, t: seq<T>, i: int)
    requires |s| == |t| && -1 <= i < |s|
    requires multiset(s) == multiset(t) && s[i + 1..] == t[i + 1..]
    ensures multiset(s[..i + 1]) == multiset(t[..i + 1])
  {
    assert s == s[..i + 1] + s[i + 1..];
    assert t == t[..i + 1] + t[i + 1..];
    assert multiset(s) == multiset(s[..i + 1]) + multiset(s[i + 1..]);
    assert multiset(t) == multiset(t[..i + 1]) + multiset(t[i + 1..]);
    assert multiset(s[..i + 1]) == multiset(s) - multiset(s[i + 1..]);
    assert multiset(t[..i + 1]) == multiset(t) - multiset(t[i + 1..]);
  }

  lemma SingletonMultiset<T>(x: T, y: T)
    requires multiset{x} == multiset{y}
    ensures x == y
  {
    assert x in multiset{y};
  }

  /** With only position 0 left to rearrange, s already is t. */
  lemma SameAboveZero<T>(s: seq<T>, t: seq<T>)
    requires |s| == |t| && 0 < |s|
    requires multiset(s[..1]) == multiset(t[..1])
    requires s[1..] == t[1..]
    ensures s == t
  {
    assert s[..1] == [s[0]] && t[..1] == [t[0]];
    SingletonMultiset(s[0], t[0]);
    assert s == [s[0]] + s[1..] && t == [t[0]] + t[1..];
  }

  lemma SameFromZero<T>(s: seq<T>, t: seq<T>)
    requires s[0..] == t[0..]
    ensures s == t
  {
    assert s == s[0..] && t == t[0..];
  }

  /** With nothing left to rearrange, s already is t. */
  lemma SameAboveAndAtZero<T>(s: seq<T>, t: seq<T>, i: int)
    requires |s| == |t| && -1 <= i <= 0 && i < |s|
    requires multiset(s[..i + 1]) == multiset(t[..i + 1])
    requires s[i + 1..] == t[i + 1..]
    ensures s == t
  {
    if i == 0 {
      SameAboveZero(s, t);
    } else {
      SameFromZero(s, t);
    }
  }

  /** The element t wants at position i sits at some position j <= i of s. */
  lemma SourceOf<T>(s: seq<T>, t: seq<T>, i: nat) returns (j: nat)
    requires i < |s| && i < |t|
    requires multiset(s[..i + 1]) == multiset(t[..i + 1])
    ensures j <= i && s[j] == t[i]
  {
    assert t[..i + 1] == t[..i] + [t[i]];
    assert t[i] in multiset(s[..i + 1]);
    j :| 0 <= j <= i && s[j] == t[i];
  }

  /** Swapping into position i an element s[j] equal to t[i] makes the
      swapped sequence agree with t from i on. */
  lemma PlaceAt<T>(s: seq<T>, t: seq<T>, i: nat, j: nat)
    requires |s| == |t| && i < |s| && j <= i && s[j] == t[i]
    requires s[i + 1..] == t[i + 1..]
    ensures SwapAt(s, i, j)[i..] == t[i..]
  {
    var s' := SwapAt(s, i, j);
    forall k | i <= k < |s| ensures s'[k] == t[k] {
      if k > i {
        assert s[k] == s[i + 1..][k - i - 1] && t[k] == t[i + 1..][k - i - 1];
      }
    }
  }

  /** Extending draws that finish the job below i with the draw j at i
      finishes the job from i. */
  lemma ExtendDraws<T>(s: seq<T>, t: seq<T>, js': seq<nat>, i: nat, j: nat)
    requires 0 < i < |s| && j <= i && IsDraw(js', |s|)
    requires Steps(SwapAt(s, i, j), js', i - 1) == t
    ensures IsDraw(js'[i := j], |s|) && Steps(s, js'[i := j], i) == t
  {
    var js := js'[i := j];
    assert IsDraw(js, |s|);
    StepsReadDrawsUpTo(SwapAt(s, i, j), js, js', i - 1);
  }

  /** Working down from position i, the steps can produce any rearrangement t
      of s that agrees with s above i. */
  lemma {:induction false} StepsReach<T>(s: seq<T>, t: seq<T>, i: int) returns (js: seq<nat>)
    requires |s| == |t| && -1 <= i < |s|
    requires multiset(s) == multiset(t) && s[i + 1..] == t[i + 1..]
    ensures IsDraw(js, |s|) && Steps(s, js, i) == t
    decreases i + 1
  {
    PrefixMultiset(s, t, i);
    if i <= 0 {
      js := seq(|s|, k => 0);
      SameAboveAndAtZero(s, t, i);
    } else {
      var j := SourceOf(s, t, i);
      PlaceAt(s, t, i, j);
      SwapPermutes(s, i, j);
      var js' := StepsReach(SwapAt(s, i, j), t, i - 1);
      ExtendDraws(s, t, js', i, j);
      js := js'[i := j];
    }
  }

  /** Every arrangement of the answers is produced by some choice of draws. */
  lemma FisherYatesReachesEveryOrder<T>(s: seq<T>, t: seq<T>)
    requires multiset(s) == multiset(t)
    ensures exists js :: IsDraw(js, |s|) && FisherYates(s, js) == t
  {
    assert |s| == |multiset(s)| == |multiset(t)| == |t|;
    assert s[|s|..] == [] == t[|t|..];
    var js := StepsReach(s, t, |s| - 1);
    assert IsDraw(js, |s|) && FisherYates(s, js) == t;
  }

  /** A swap keeps distinct elements distinct. */
  lemma SwapKeepsDistinct<T>(s: seq<T>, i: nat, j: nat)
    requires i < |s| && j < |s| && Distinct(s)
    ensures Distinct(SwapAt(s, i, j))
  {
    var r := SwapAt(s, i, j);
    forall a, b | 0 <= a < b < |r| ensures r[a] != r[b] {
      var a' := if a == i then j else if a == j then i else a;
      var b' := if b == i then j else if b == j then i else b;
      assert r[a] == s[a'] && r[b] == s[b'] && a' != b';
    }
  }

  /** On distinct elements, the arrangement the steps produce determines the
      draws that produced it. */
  lemma {:induction false} StepsInjective<T>(s: seq<T>, js: seq<nat>, js': seq<nat>, i: int)
    requires i < |s| && IsDraw(js, |s|) && IsDraw(js', |s|) && Distinct(s)
    requires Steps(s, js, i) == Steps(s, js', i)
    ensures forall k :: 0 <= k <= i ==> js[k] == js'[k]
    decreases i
  {
    if i > 0 {
      var a, b := SwapAt(s, i, js[i]), SwapAt(s, i, js'[i]);
      StepsKeepAbove(a, js, i - 1, i);
      StepsKeepAbove(b, js', i - 1, i);
      assert s[js[i]] == s[js'[i]];
      SwapKeepsDistinct(s, i, js[i]);
      StepsInjective(a, js, js', i - 1);
    }
  }

  /** Distinct draws give distinct arrangements of distinct answers; with
      FisherYatesReachesEveryOrder, draws and arrangements correspond one to
      one, which is what makes the shuffle unbiased for uniform draws. */
  lemma FisherYatesInjective<T>(s: seq<T>, js: seq<nat>, js': seq<nat>)
    requires IsDraw(js, |s|) && IsDraw(js', |s|) && Distinct(s)
    requires FisherYates(s, js) == FisherYates(s, js')
    ensures js == js'
  {
    StepsInjective(s, js, js', |s| - 1);
  }

  /** The `shuffle` helper: copy the answers into a fresh array and run the
      Fisher-Yates loop on the copy. The input sequence is a value, so the
      bank it came from is untouched. */
  method ShuffleAnswers(arr: seq<Answer>, js: seq<nat>) returns (r: seq<Answer>)
    requires IsDraw(js, |arr|)
    ensures r == FisherYates(arr, js)
    ensures |r| == |arr| && multiset(r) == multiset(arr)
  {
    var copy := new Answer[|arr|](k requires 0 <= k < |arr| => arr[k]);
    assert copy[..] == arr;
    var i: int := copy.Length - 1;
    while i > 0
      invariant -1 <= i < copy.Length
      invariant IsDraw(js, copy.Length)
      invariant Steps(copy[..], js, i) == FisherYates(arr, js)
      decreases i
    {
      var j := js[i];
      ghost var before := copy[..];
      var tmp := copy[i];
      copy[i] := copy[j];
      copy[j] := tmp;
      assert copy[..] == SwapAt(before, i, j);
      i := i - 1;
    }
    r := copy[..];
    FisherYatesPermutes(arr, js);
  }

  /** One draw sequence per question, each fitting that question's answers. */
  predicate BankDraws(bank: seq<Question>, draws: seq<seq<nat>>) {
    |draws| == |bank| &&
    forall i :: 0 <= i < |bank| ==> IsDraw(draws[i], |bank[i].answers|)
  }

  /** `questions.map(q => ({...q, answers: shuffle(q.answers)}))`. */
  function ShuffledBank(bank: seq<Question>, draws: seq<seq<nat>>): (r: seq<Question>)
    requires BankDraws(bank, draws)
    ensures |r| == |bank|
  {
    seq(|bank|, i requires 0 <= i < |bank| =>
      bank[i].(answers := FisherYates(bank[i].answers, draws[i])))
  }

  /** r is the bank with, at most, each question's answers reordered: same
      length, same question order, same prompts, same answers per question. */
  predicate SameQuestions(r: seq<Question>, bank: seq<Question>) {
    |r| == |bank| &&
    forall i :: 0 <= i < |bank| ==>
      r[i].prompt == bank[i].prompt && multiset(r[i].answers) == multiset(bank[i].answers)
  }

  /** Shuffling the bank only permutes answers within each question. */
  lemma ShuffledBankKeepsQuestions(bank: seq<Question>, draws: seq<seq<nat>>)
    requires BankDraws(bank, draws)
    ensures SameQuestions(ShuffledBank(bank, draws), bank)
  {
    forall i | 0 <= i < |bank|
      ensures multiset(ShuffledBank(bank, draws)[i].answers) == multiset(bank[i].answers)
    {
      FisherYatesPermutes(bank[i].answers, draws[i]);
    }
  }

  /** Any per-question reordering of the answers is a possible shuffled bank. */
  lemma ShuffledBankReachesEveryOrder(bank: seq<Question>, r: seq<Question>)
    requires SameQuestions(r, bank)
    ensures exists draws :: BankDraws(bank, draws) && ShuffledBank(bank, draws) == r
  {
    var draws := seq(|bank|, i requires 0 <= i < |bank| =>
      FisherYatesReachesEveryOrder(bank[i].answers, r[i].answers);
      var js :| IsDraw(js, |bank[i].answers|) && FisherYates(bank[i].answers, js) == r[i].answers;
      js);
    assert BankDraws(bank, draws);
    assert ShuffledBank(bank, draws) == r;
  }

  /** Each answer of the fixed bank scores for a different house, so no two
      answers of a question are equal. */
  lemma BankAnswersDistinct()
    ensures forall i :: 0 <= i < |Questions| ==> Distinct(Questions[i].answers)
  {
    BankOffersEachHouseOnce();
    forall i, a, b | 0 <= i < |Questions| && 0 <= a < b < |Questions[i].answers|
      ensures Questions[i].answers[a] != Questions[i].answers[b]
    {
      assert Questions[i].answers[a].house == HouseOrder[a];
      assert Questions[i].answers[b].house == HouseOrder[b];
    }
  }

  /** On a bank whose questions have distinct answers, the shuffled bank
      determines the draws that produced it. */
  lemma ShuffledBankInjective(bank: seq<Question>, draws: seq<seq<nat>>, draws': seq<seq<nat>>)
    requires BankDraws(bank, draws) && BankDraws(bank, draws')
    requires forall i :: 0 <= i < |bank| ==> Distinct(bank[i].answers)
    requires ShuffledBank(bank, draws) == ShuffledBank(bank, draws')
    ensures draws == draws'
  {
    forall i | 0 <= i < |bank| ensures draws[i] == draws'[i] {
      assert ShuffledBank(bank, draws)[i].answers == ShuffledBank(bank, draws')[i].answers;
      FisherYatesInjective(bank[i].answers, draws[i], draws'[i]);
    }
  }

  /** For the fixed bank, draws and shuffled banks correspond one to one. */
  lemma QuestionsShuffleOneToOne(draws: seq<seq<nat>>, draws': seq<seq<nat>>)
    requires BankDraws(Questions, draws) && BankDraws(Questions, draws')
    requires ShuffledBank(Questions, draws) == ShuffledBank(Questions, draws')
    ensures draws == draws'
  {
    BankAnswersDistinct();
    ShuffledBankInjective(Questions, draws, draws');
  }

  /** The bank half of the mount effect, one shuffle per question in order. */
  method ShuffleQuestions(bank: seq<Question>, draws: seq<seq<nat>>) returns (r: seq<Question>)
    requires BankDraws(bank, draws)
    ensures r == ShuffledBank(bank, draws)
    ensures SameQuestions(r, bank)
  {
    r := [];
    for i := 0 to |bank|
      invariant |r| == i
      invariant forall k :: 0 <= k < i ==>
        r[k] == bank[k].(answers := FisherYates(bank[k].answers, draws[k]))
    {
      var answers := ShuffleAnswers(bank[i].answers, draws[i]);
      r := r + [bank[i].(answers := answers)];
    }
    ShuffledBankKeepsQuestions(bank, draws);
  }
}
